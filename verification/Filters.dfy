/**
 Polling filters: the filter store (`cache/index.ts`), the log query (`db/query.ts`), and the cursor
 that `eth_getFilterChanges` advances (`methods/modules/eth.ts`).

 Log rows carry serial ids; the only writer gives every new row a larger id than any row before it.
 */
module Filters {
  import opened Wrappers
  import opened Binary
  import opened Hex
  import Topics
  import Seqs

  datatype Row = Row(id: nat, blockNumber: nat, address: Bytes, topics: seq<Bytes>, body: Bytes)

  /** A log filter with a fixed first block, no last block ("latest") and no block hash. */
  datatype LogFilter = LogFilter(fromBlock: nat, addresses: seq<Bytes>, topics: seq<Topics.FilterTopic>)

  datatype Filter = LogsOf(request: LogFilter) | BlockFilter | PendingTransaction

  // ----- the query -----

  predicate Keeps(f: LogFilter, row: Row) {
    && f.fromBlock <= row.blockNumber
    && (f.addresses == [] || row.address in f.addresses)
    && Topics.SqlMatches(Topics.DbLog(row.id, row.topics), f.topics)
  }

  /** The WHERE clause; a cursor of -1 stands for no cursor. */
  predicate Selected(f: LogFilter, row: Row, lastPoll: int, toBlock: nat) {
    Keeps(f, row) && row.blockNumber <= toBlock && row.id > lastPoll
  }

  function Select(rows: seq<Row>, f: LogFilter, lastPoll: int, toBlock: nat): seq<Row> {
    if rows == [] then []
    else
      var last := rows[|rows| - 1];
      Select(rows[..|rows| - 1], f, lastPoll, toBlock) + if Selected(f, last, lastPoll, toBlock) then [last] else []
  }

  predicate Increasing(rows: seq<Row>) {
    forall i, j :: 0 <= i < j < |rows| ==> rows[i].id < rows[j].id
  }

  lemma {:induction false} SelectIs(rows: seq<Row>, f: LogFilter, lastPoll: int, toBlock: nat)
    ensures forall row :: row in Select(rows, f, lastPoll, toBlock) <==>
                            row in rows && Selected(f, row, lastPoll, toBlock)
    ensures Increasing(rows) ==> Increasing(Select(rows, f, lastPoll, toBlock))
  {
    if rows != [] {
      var init, last := rows[..|rows| - 1], rows[|rows| - 1];
      SelectIs(init, f, lastPoll, toBlock);
      assert rows == init + [last];
      if Increasing(rows) {
        forall row | row in Select(init, f, lastPoll, toBlock) ensures row.id < last.id {
          assert row in init;
        }
      }
    }
  }

  predicate Sorted(rows: seq<Row>) {
    forall i, j :: 0 <= i < j < |rows| ==> rows[i].id <= rows[j].id
  }

  /** `sort` by id. */
  method SortById(logs: seq<Row>) returns (sorted: seq<Row>)
    ensures multiset(sorted) == multiset(logs) && Sorted(sorted)
  {
    sorted := [];
    for n := 0 to |logs|
      invariant multiset(sorted) == multiset(logs[..n]) && Sorted(sorted)
    {
      Seqs.Snoc(logs, n);
      sorted := InsertById(sorted, logs[n]);
    }
    assert logs[..|logs|] == logs;
  }

  method InsertById(sorted: seq<Row>, row: Row) returns (r: seq<Row>)
    requires Sorted(sorted)
    ensures multiset(r) == multiset(sorted) + multiset{row} && Sorted(r)
  {
    var at := |sorted|;
    while at > 0 && sorted[at - 1].id > row.id
      invariant 0 <= at <= |sorted|
      invariant at < |sorted| ==> sorted[at].id > row.id
    {
      at := at - 1;
    }
    Inserted(sorted, at, row);
    return sorted[..at] + [row] + sorted[at..];
  }

  lemma {:induction false} Inserted(sorted: seq<Row>, at: nat, row: Row)
    requires Sorted(sorted) && at <= |sorted|
    requires at > 0 ==> sorted[at - 1].id <= row.id
    requires at < |sorted| ==> sorted[at].id > row.id
    ensures Sorted(sorted[..at] + [row] + sorted[at..])
    ensures multiset(sorted[..at] + [row] + sorted[at..]) == multiset(sorted) + multiset{row}
  {
    InsertedInOrder(sorted, at, row);
    assert multiset(sorted) == multiset(sorted[..at]) + multiset(sorted[at..]) by {
      Seqs.Split(sorted, at);
    }
  }

  lemma {:induction false} InsertedInOrder(sorted: seq<Row>, at: nat, row: Row)
    requires Sorted(sorted) && at <= |sorted|
    requires at > 0 ==> sorted[at - 1].id <= row.id
    requires at < |sorted| ==> sorted[at].id > row.id
    ensures Sorted(sorted[..at] + [row] + sorted[at..])
  {
    var r := sorted[..at] + [row] + sorted[at..];
    forall i, j | 0 <= i < j < |r| ensures r[i].id <= r[j].id {
      var a := if i < at then i else i - 1;
      var b := if j < at then j else j - 1;
      assert i != at ==> r[i] == sorted[a];
      assert j != at ==> r[j] == sorted[b];
    }
  }

  lemma {:induction false} LastIsTop(rows: seq<Row>, i: nat)
    requires Increasing(rows) && i < |rows|
    ensures rows[i].id <= rows[|rows| - 1].id
    ensures rows[i].id == rows[|rows| - 1].id ==> rows[i] == rows[|rows| - 1]
  {
    if i < |rows| - 1 {
      assert rows[i].id < rows[|rows| - 1].id;
    }
  }

  lemma {:induction false} SameLast(a: seq<Row>, b: seq<Row>)
    requires multiset(a) == multiset(b) && Increasing(b) && Sorted(a)
    requires a != [] && |a| == |b|
    ensures a[|a| - 1] == b[|b| - 1]
  {
    var n := |a| - 1;
    assert a[n] in multiset(a) && b[n] in multiset(b);
    var i :| 0 <= i < |b| && b[i] == a[n];
    var j :| 0 <= j < |a| && a[j] == b[n];
    assert a[j].id <= a[n].id;
    LastIsTop(b, i);
  }

  lemma {:induction false} WithoutLast(a: seq<Row>)
    requires a != []
    ensures multiset(a[..|a| - 1]) == multiset(a) - multiset{a[|a| - 1]}
  {
    Seqs.InitLast(a);
  }

  lemma {:induction false} SameSize(a: seq<Row>, b: seq<Row>)
    requires multiset(a) == multiset(b)
    ensures |a| == |b|
  {
    assert |multiset(a)| == |multiset(b)|;
  }

  /** There is one way to sort rows with distinct ids. */
  lemma {:induction false} SortedOnce(a: seq<Row>, b: seq<Row>)
    requires multiset(a) == multiset(b) && Increasing(b) && Sorted(a)
    ensures a == b
    decreases |a|
  {
    SameSize(a, b);
    if a != [] {
      var n := |a| - 1;
      SameLast(a, b);
      WithoutLast(a);
      WithoutLast(b);
      SortedOnce(a[..n], b[..n]);
      Seqs.InitLast(a);
      Seqs.InitLast(b);
    }
  }

  /** Without ORDER BY the database may answer in any order, and with LIMIT by any rows up to the limit. */
  ghost predicate MayAnswer(found: seq<Row>, selected: seq<Row>, limit: nat) {
    multiset(found) <= multiset(selected) && |found| == Min(|selected|, limit)
  }

  lemma {:induction false} AllFound(found: seq<Row>, selected: seq<Row>)
    requires multiset(found) <= multiset(selected) && |found| == |selected|
    ensures multiset(found) == multiset(selected)
  {
    var rest := multiset(selected) - multiset(found);
    assert multiset(selected) == multiset(found) + rest;
    assert |multiset(found)| == |multiset(selected)|;
    assert |rest| == 0;
  }

  /** The query, as far as its text fixes the answer. */
  method QueryLogs(rows: seq<Row>, f: LogFilter, lastPoll: int, toBlock: nat, limit: nat) returns (found: seq<Row>)
    ensures MayAnswer(found, Select(rows, f, lastPoll, toBlock), limit)
  {
    found := Select(rows, f, lastPoll, toBlock);
    if |found| > limit {
      Seqs.Split(found, limit);
      found := found[..limit];
    }
  }

  /**
   `getLogsByFilter`: by id, all rows in the block range and after the cursor whose address is listed, if
   any is, and whose topics match at every position; or an error when there are more than the limit.
   */
  method GetLogsByFilter(rows: seq<Row>, f: LogFilter, lastPoll: int, toBlock: nat, maxQueryNumber: nat, timedOut: bool)
    returns (r: Result<seq<Row>>)
    requires Increasing(rows)
    ensures r == if timedOut || |Select(rows, f, lastPoll, toBlock)| > maxQueryNumber then Err("LimitExceedError")
                 else Ok(Select(rows, f, lastPoll, toBlock))
    ensures r.Ok? ==>
              && |r.value| <= maxQueryNumber
              && forall i, j :: 0 <= i < j < |r.value| ==> r.value[i].id < r.value[j].id
    ensures r.Ok? ==> forall row :: row in r.value <==>
              && row in rows
              && f.fromBlock <= row.blockNumber <= toBlock
              && row.id > lastPoll
              && (f.addresses == [] || row.address in f.addresses)
              && |f.topics| <= |row.topics|
              && forall i :: 0 <= i < |f.topics| ==>
                   match f.topics[i]
                   case Any => true
                   case One(t) => row.topics[i] == Topics.HexToBuffer(t)
                   case OneOf(ts) => exists t :: t in ts && row.topics[i] == Topics.HexToBuffer(t)
  {
    var found := QueryLogs(rows, f, lastPoll, toBlock, maxQueryNumber + 1);
    if timedOut || |found| > maxQueryNumber {
      return Err("LimitExceedError");
    }
    var sorted := SortById(found);
    SelectIs(rows, f, lastPoll, toBlock);
    AllFound(found, Select(rows, f, lastPoll, toBlock));
    SortedOnce(sorted, Select(rows, f, lastPoll, toBlock));
    return Ok(sorted);
  }

  // ----- the filter store -----

  datatype FilterCache = FilterCache(filter: Filter, lastPoll: nat)

  /** What is kept in Redis; the cursor is hex text. */
  datatype FilterCacheInDb = FilterCacheInDb(filter: Filter, lastPoll: string)

  function SerializeFilterCache(data: FilterCache): FilterCacheInDb {
    FilterCacheInDb(data.filter, ToHexNumber(data.lastPoll))
  }

  function DeserializeFilterCache(data: FilterCacheInDb): Result<FilterCache> {
    var lastPoll :- ParseHexNumber(data.lastPoll);
    Ok(FilterCache(data.filter, lastPoll))
  }

  lemma {:induction false} FilterCacheRoundTrip(data: FilterCache)
    ensures DeserializeFilterCache(SerializeFilterCache(data)) == Ok(data)
  {
    ParseOfToHexNumber(data.lastPoll);
  }

  datatype BlockRow = BlockRow(number: nat, hash: Bytes)

  datatype Changes = Hashes(hashes: seq<Bytes>) | Logs(logs: seq<Row>)

  predicate InNumberOrder(blocks: seq<BlockRow>) {
    forall i, j :: 0 <= i < j < |blocks| ==> blocks[i].number < blocks[j].number
  }

  /** `getBlockHashesAndNumbersAfterBlockNumber(number, "asc")` on a table in number order. */
  function BlocksAfter(blocks: seq<BlockRow>, number: nat): seq<BlockRow> {
    if blocks == [] then []
    else
      var last := blocks[|blocks| - 1];
      BlocksAfter(blocks[..|blocks| - 1], number) + if last.number > number then [last] else []
  }

  /** On a chain stored from 0, these are the blocks after the cursor, none left out. */
  lemma {:induction false} BlocksAfterIsSuffix(blocks: seq<BlockRow>, number: nat)
    requires forall i :: 0 <= i < |blocks| ==> blocks[i].number == i
    ensures BlocksAfter(blocks, number) == if number < |blocks| then blocks[number + 1..] else []
  {
    if blocks != [] {
      var init := blocks[..|blocks| - 1];
      BlocksAfterIsSuffix(init, number);
      if number < |init| {
        Seqs.DropOfSnoc(blocks, number + 1);
      }
    }
  }

  function HashesOf(blocks: seq<BlockRow>): (hashes: seq<Bytes>)
    ensures |hashes| == |blocks|
  {
    seq(|blocks|, i requires 0 <= i < |blocks| => blocks[i].hash)
  }

  /** The answer to a block filter: the hash of every block after the cursor, in order. */
  lemma {:induction false} NewHashes(blocks: seq<BlockRow>, number: nat, k: nat)
    requires forall i :: 0 <= i < |blocks| ==> blocks[i].number == i
    requires number + 1 + k < |blocks|
    ensures |HashesOf(BlocksAfter(blocks, number))| == |blocks| - number - 1
    ensures HashesOf(BlocksAfter(blocks, number))[k] == blocks[number + 1 + k].hash
  {
    BlocksAfterIsSuffix(blocks, number);
  }

  class FilterManager {
    var store: map<string, FilterCacheInDb>

    /** Everything in the store was written by `SerializeFilterCache`. */
    ghost predicate Valid()
      reads this
    {
      forall id :: id in store ==> DeserializeFilterCache(store[id]).Ok?
    }

    ghost function At(id: string): FilterCache
      requires Valid() && id in store
      reads this
    {
      DeserializeFilterCache(store[id]).value
    }

    constructor ()
      ensures Valid() && store == map[]
    {
      store := map[];
    }

    method Install(filter: Filter, initialPollIdx: nat, newId: string)
      requires Valid()
      modifies this
      ensures Valid() && store.Keys == old(store.Keys) + {newId}
      ensures At(newId) == FilterCache(filter, initialPollIdx)
      ensures forall id :: id in old(store) && id != newId ==> store[id] == old(store[id])
    {
      FilterCacheRoundTrip(FilterCache(filter, initialPollIdx));
      store := store[newId := SerializeFilterCache(FilterCache(filter, initialPollIdx))];
    }

    method Get(id: string) returns (filter: Option<Filter>)
      requires Valid()
      ensures filter == if id in store then Some(At(id).filter) else None
    {
      if id !in store {
        return None;
      }
      return Some(DeserializeFilterCache(store[id]).value.filter);
    }

    method Uninstall(id: string) returns (found: bool)
      requires Valid()
      modifies this
      ensures Valid() && (found <==> id in old(store)) && store == old(store) - {id}
    {
      found := id in store;
      store := store - {id};
    }

    method GetLastPoll(id: string) returns (r: Result<nat>)
      requires Valid()
      ensures r == if id in store then Ok(At(id).lastPoll) else Err("filter not exits")
    {
      if id !in store {
        return Err("filter not exits");
      }
      return Ok(DeserializeFilterCache(store[id]).value.lastPoll);
    }

    method UpdateLastPoll(id: string, lastPoll: nat)
      requires Valid() && id in store
      modifies this
      ensures Valid() && store.Keys == old(store.Keys)
      ensures At(id) == old(At(id)).(lastPoll := lastPoll)
      ensures forall other :: other in old(store) && other != id ==> store[other] == old(store[other])
    {
      var filterCache := DeserializeFilterCache(store[id]).value;
      FilterCacheRoundTrip(filterCache.(lastPoll := lastPoll));
      store := store[id := SerializeFilterCache(filterCache.(lastPoll := lastPoll))];
    }

    /** `newFilter`; `tipLog` is the id of the newest log row, if any. */
    method NewFilter(request: LogFilter, tipLog: Option<nat>, newId: string)
      requires Valid()
      modifies this
      ensures Valid()
      ensures newId in store && At(newId) == FilterCache(LogsOf(request), if tipLog.Some? then tipLog.value else 0)
      ensures forall id :: id in old(store) && id != newId ==> id in store && store[id] == old(store[id])
    {
      Install(LogsOf(request), if tipLog.Some? then tipLog.value else 0, newId);
    }

    /**
     `getFilterChanges`. `toBlock` is the tip block number that was read first, `rows` and `blocks` the
     tables when the query ran. The cursor moves to the last delivered id or number, and not at all
     when nothing is delivered or the query fails.
     */
    method GetFilterChanges(id: string, rows: seq<Row>, toBlock: nat, maxQueryNumber: nat, timedOut: bool,
                            blocks: seq<BlockRow>)
      returns (r: Result<Changes>)
      requires Valid() && Increasing(rows) && InNumberOrder(blocks)
      modifies this
      ensures Valid()
      ensures id !in old(store) ==> r == Err("filter not found")
      ensures id in old(store) ==> id in store
      ensures id in old(store) && old(At(id)).filter.PendingTransaction? ==>
                r == Ok(Hashes([])) && At(id) == old(At(id))
      ensures id in old(store) && old(At(id)).filter.LogsOf? ==>
                var selected := Select(rows, old(At(id)).filter.request, old(At(id)).lastPoll, toBlock);
                && r == (if timedOut || |selected| > maxQueryNumber then Err("LimitExceedError")
                         else Ok(Logs(selected)))
                && At(id) == (if selected == [] || r.Err? then old(At(id))
                              else old(At(id)).(lastPoll := selected[|selected| - 1].id))
      ensures id in old(store) && old(At(id)).filter.BlockFilter? ==>
                var after := BlocksAfter(blocks, old(At(id)).lastPoll);
                && r == Ok(Hashes(HashesOf(after)))
                && At(id) == (if after == [] then old(At(id))
                              else old(At(id)).(lastPoll := after[|after| - 1].number))
      ensures forall other :: other in old(store) && other != id ==> other in store && store[other] == old(store[other])
    {
      var filter := Get(id);
      match filter {
        case None => return Err("filter not found");
        case Some(PendingTransaction) => return Ok(Hashes([]));
        case Some(BlockFilter) =>
          var lastPoll := GetLastPoll(id);
          var after := BlocksAfter(blocks, lastPoll.value);
          if |after| != 0 {
            UpdateLastPoll(id, after[|after| - 1].number);
          }
          return Ok(Hashes(HashesOf(after)));
        case Some(LogsOf(request)) =>
          r := GetLogChanges(id, request, rows, toBlock, maxQueryNumber, timedOut);
      }
    }

    method GetLogChanges(id: string, request: LogFilter, rows: seq<Row>, toBlock: nat, maxQueryNumber: nat,
          timedOut: bool)
      returns (r: Result<Changes>)
      requires Valid() && Increasing(rows) && id in store && At(id).filter == LogsOf(request)
      modifies this
      ensures Valid() && id in store
      ensures var selected := Select(rows, old(At(id)).filter.request, old(At(id)).lastPoll, toBlock);
              && r == (if timedOut || |selected| > maxQueryNumber then Err("LimitExceedError") else Ok(Logs(selected)))
              && At(id) == (if selected == [] || r.Err? then old(At(id))
                            else old(At(id)).(lastPoll := selected[|selected| - 1].id))
      ensures forall other :: other in old(store) && other != id ==> other in store && store[other] == old(store[other])
    {
      var lastPoll := GetLastPoll(id);
      var logs := GetLogsByFilter(rows, request, lastPoll.value, toBlock, maxQueryNumber, timedOut);
      if logs.Err? {
        return Err(logs.reason);
      }
      if |logs.value| != 0 {
        UpdateLastPoll(id, logs.value[|logs.value| - 1].id);
      }
      return Ok(Logs(logs.value));
    }

    /** `getFilterLogs`: nothing for the other kinds of filter, else the changes, cursor and all. */
    method GetFilterLogs(id: string, rows: seq<Row>, toBlock: nat, maxQueryNumber: nat, timedOut: bool)
      returns (r: Result<Changes>)
      requires Valid() && Increasing(rows)
      modifies this
      ensures Valid()
      ensures id !in old(store) ==> r == Err("filter not found")
      ensures id in old(store) && !old(At(id)).filter.LogsOf? ==> r == Ok(Logs([])) && store == old(store)
      ensures id in old(store) && old(At(id)).filter.LogsOf? ==>
                var selected := Select(rows, old(At(id)).filter.request, old(At(id)).lastPoll, toBlock);
                && r == (if timedOut || |selected| > maxQueryNumber then Err("LimitExceedError")
                         else Ok(Logs(selected)))
                && id in store
                && At(id) == (if selected == [] || r.Err? then old(At(id))
                              else old(At(id)).(lastPoll := selected[|selected| - 1].id))
      ensures forall other :: other in old(store) && other != id ==> other in store && store[other] == old(store[other])
    {
      var filter := Get(id);
      if filter.None? {
        return Err("filter not found");
      }
      if !filter.value.LogsOf? {
        return Ok(Logs([]));
      }
      r := GetLogChanges(id, filter.value.request, rows, toBlock, maxQueryNumber, timedOut);
    }
  }

  // ----- every run of appends, rollbacks and polls -----

  /**
   The database and one log filter: `nextId` bounds every id given out so far, `reading` is the tip that
   a poll under way has read, `delivered` what the polls returned so far.
   */
  datatype State = State(
    rows: seq<Row>, tip: nat, nextId: nat, installedAt: nat, lastPoll: nat, reading: Option<nat>, delivered: seq<Row>)

  datatype Event =
    | AppendBlock(rows: seq<Row>)
    | RollbackBlock
    | BeginPoll
    | EndPoll

  /** The rows of a new block take fresh, increasing ids. */
  ghost predicate FreshRows(s: State, rows: seq<Row>) {
    && Increasing(rows)
    && forall row :: row in rows ==> row.id >= s.nextId && row.blockNumber == s.tip + 1
  }

  function Below(rows: seq<Row>, blockNumber: nat): seq<Row> {
    if rows == [] then []
    else
      var last := rows[|rows| - 1];
      Below(rows[..|rows| - 1], blockNumber) + if last.blockNumber < blockNumber then [last] else []
  }

  ghost function Step(s: State, e: Event, f: LogFilter, maxQueryNumber: nat): Option<State> {
    match e
    case AppendBlock(rows) =>
      if !FreshRows(s, rows) then None
      else Some(s.(rows := s.rows + rows, tip := s.tip + 1,
                   nextId := if rows == [] then s.nextId else rows[|rows| - 1].id + 1))
    case RollbackBlock =>
      if s.tip == 0 then None else Some(s.(rows := Below(s.rows, s.tip), tip := s.tip - 1))
    case BeginPoll =>
      if s.reading.Some? then None else Some(s.(reading := Some(s.tip)))
    case EndPoll =>
      if s.reading.None? then None
      else
        var selected := Select(s.rows, f, s.lastPoll, s.reading.value);
        if selected == [] || |selected| > maxQueryNumber then Some(s.(reading := None))
        else Some(s.(reading := None, delivered := s.delivered + selected, lastPoll := selected[|selected| - 1].id))
  }

  ghost function Steps(s: State, events: seq<Event>, f: LogFilter, maxQueryNumber: nat): Option<State>
    decreases |events|
  {
    if events == [] then Some(s)
    else if Step(s, events[0], f, maxQueryNumber).None? then None
    else Steps(Step(s, events[0], f, maxQueryNumber).value, events[1..], f, maxQueryNumber)
  }

  /** Ids and block numbers grow together along the table. */
  ghost predicate Ordered(rows: seq<Row>, tip: nat, nextId: nat) {
    && Increasing(rows)
    && BlocksInOrder(rows)
    && forall row :: row in rows ==> row.id < nextId && row.blockNumber <= tip
  }

  predicate BlocksInOrder(rows: seq<Row>) {
    forall i, j :: 0 <= i < j < |rows| ==> rows[i].blockNumber <= rows[j].blockNumber
  }

  ghost predicate Inv(s: State, f: LogFilter) {
    && Ordered(s.rows, s.tip, s.nextId)
    && s.installedAt <= s.lastPoll < s.nextId
    && Increasing(s.delivered)
    && (forall row :: row in s.delivered ==> s.installedAt < row.id <= s.lastPoll && Keeps(f, row))
    && forall row :: row in s.rows && Keeps(f, row) && s.installedAt < row.id <= s.lastPoll ==> row in s.delivered
  }

  lemma {:induction false} BelowIs(rows: seq<Row>, blockNumber: nat)
    ensures forall row :: row in Below(rows, blockNumber) <==> row in rows && row.blockNumber < blockNumber
  {
    if rows != [] {
      BelowIs(rows[..|rows| - 1], blockNumber);
      assert rows == rows[..|rows| - 1] + [rows[|rows| - 1]];
    }
  }

  lemma {:induction false} SnocKeepsOrder(rows: seq<Row>, last: Row)
    requires Increasing(rows) && BlocksInOrder(rows)
    requires forall row :: row in rows ==> row.id < last.id && row.blockNumber <= last.blockNumber
    ensures Increasing(rows + [last]) && BlocksInOrder(rows + [last])
  {
  }

  lemma {:induction false} BelowKeepsOrder(rows: seq<Row>, blockNumber: nat)
    requires Increasing(rows) && BlocksInOrder(rows)
    ensures Increasing(Below(rows, blockNumber)) && BlocksInOrder(Below(rows, blockNumber))
  {
    if rows != [] {
      var init, last := rows[..|rows| - 1], rows[|rows| - 1];
      BelowIs(init, blockNumber);
      BelowKeepsOrder(init, blockNumber);
      forall row | row in Below(init, blockNumber) ensures row.id < last.id && row.blockNumber <= last.blockNumber {
        var i :| 0 <= i < |init| && init[i] == row;
        assert rows[i] == row;
      }
      SnocKeepsOrder(Below(init, blockNumber), last);
    }
  }

  lemma {:induction false} AppendKeepsInv(s: State, rows: seq<Row>, f: LogFilter, maxQueryNumber: nat)
    requires Inv(s, f) && Step(s, AppendBlock(rows), f, maxQueryNumber).Some?
    ensures Inv(Step(s, AppendBlock(rows), f, maxQueryNumber).value, f)
  {
    var u := Step(s, AppendBlock(rows), f, maxQueryNumber).value;
    assert u.nextId >= s.nextId;
    forall row | row in rows ensures row.id < u.nextId {
      var i :| 0 <= i < |rows| && rows[i] == row;
      assert i < |rows| - 1 ==> rows[i].id < rows[|rows| - 1].id;
    }
    JoinKeepsOrder(s, rows, u.nextId);
  }

  lemma {:induction false} JoinKeepsOrder(s: State, rows: seq<Row>, nextId: nat)
    requires Ordered(s.rows, s.tip, s.nextId) && FreshRows(s, rows) && nextId >= s.nextId
    requires forall row :: row in rows ==> row.id < nextId
    ensures Ordered(s.rows + rows, s.tip + 1, nextId)
  {
    var all := s.rows + rows;
    forall i, j | 0 <= i < j < |all| ensures all[i].id < all[j].id && all[i].blockNumber <= all[j].blockNumber {
      if i < |s.rows| {
        assert all[i] in s.rows;
        if j >= |s.rows| {
          assert all[j] in rows;
        }
      } else {
        assert all[i] in rows && all[j] in rows;
        assert all[i] == rows[i - |s.rows|] && all[j] == rows[j - |s.rows|];
      }
    }
  }

  lemma {:induction false} RollbackKeepsInv(s: State, f: LogFilter, maxQueryNumber: nat)
    requires Inv(s, f) && s.tip > 0
    ensures Inv(Step(s, RollbackBlock, f, maxQueryNumber).value, f)
  {
    BelowIs(s.rows, s.tip);
    BelowKeepsOrder(s.rows, s.tip);
  }

  /** A row that the query leaves out, because its block is too new, has a larger id than any row it returns. */
  lemma {:induction false} NothingSkipped(s: State, f: LogFilter, toBlock: nat, row: Row)
    requires Ordered(s.rows, s.tip, s.nextId)
    requires row in s.rows && Keeps(f, row) && row.id > s.lastPoll
    requires var selected := Select(s.rows, f, s.lastPoll, toBlock);
             selected != [] && row.id <= selected[|selected| - 1].id
    ensures row in Select(s.rows, f, s.lastPoll, toBlock)
  {
    SelectIs(s.rows, f, s.lastPoll, toBlock);
    var selected := Select(s.rows, f, s.lastPoll, toBlock);
    var last := selected[|selected| - 1];
    assert last in selected;
    var i :| 0 <= i < |s.rows| && s.rows[i] == row;
    var j :| 0 <= j < |s.rows| && s.rows[j] == last;
    assert i <= j;
  }

  lemma {:induction false} PollKeepsInv(s: State, f: LogFilter, maxQueryNumber: nat)
    requires Inv(s, f) && s.reading.Some?
    ensures Inv(Step(s, EndPoll, f, maxQueryNumber).value, f)
  {
    var selected := Select(s.rows, f, s.lastPoll, s.reading.value);
    SelectIs(s.rows, f, s.lastPoll, s.reading.value);
    if selected != [] && |selected| <= maxQueryNumber {
      var u := Step(s, EndPoll, f, maxQueryNumber).value;
      assert selected[|selected| - 1] in selected;
      SelectedAreLarger(s, selected, f);
      forall row | row in u.rows && Keeps(f, row) && u.installedAt < row.id <= u.lastPoll
        ensures row in u.delivered
      {
        if row.id > s.lastPoll {
          NothingSkipped(s, f, s.reading.value, row);
        }
      }
    }
  }

  lemma {:induction false} SelectedAreLarger(s: State, selected: seq<Row>, f: LogFilter)
    requires Inv(s, f) && Increasing(selected) && selected != []
    requires forall row :: row in selected ==> row.id > s.lastPoll && Keeps(f, row)
    ensures Increasing(s.delivered + selected)
    ensures forall row :: row in s.delivered + selected ==>
              s.installedAt < row.id <= selected[|selected| - 1].id && Keeps(f, row)
  {
    var all, last := s.delivered + selected, selected[|selected| - 1];
    forall i, j | 0 <= i < j < |all| ensures all[i].id < all[j].id {
      if i < |s.delivered| <= j {
        assert all[i] in s.delivered && all[j] in selected;
      }
    }
    assert last in selected;
    forall i | 0 <= i < |selected| ensures selected[i].id <= last.id {
      assert i < |selected| - 1 ==> selected[i].id < last.id;
    }
  }

  lemma {:induction false} StepKeepsInv(s: State, e: Event, f: LogFilter, maxQueryNumber: nat)
    requires Inv(s, f) && Step(s, e, f, maxQueryNumber).Some?
    ensures Inv(Step(s, e, f, maxQueryNumber).value, f)
  {
    match e
    case AppendBlock(rows) => AppendKeepsInv(s, rows, f, maxQueryNumber);
    case RollbackBlock => RollbackKeepsInv(s, f, maxQueryNumber);
    case BeginPoll =>
    case EndPoll => PollKeepsInv(s, f, maxQueryNumber);
  }

  lemma {:induction false} RunKeepsInv(s: State, events: seq<Event>, f: LogFilter, maxQueryNumber: nat)
    requires Inv(s, f) && Steps(s, events, f, maxQueryNumber).Some?
    ensures Inv(Steps(s, events, f, maxQueryNumber).value, f)
    decreases |events|
  {
    if events != [] {
      StepKeepsInv(s, events[0], f, maxQueryNumber);
      RunKeepsInv(Step(s, events[0], f, maxQueryNumber).value, events[1..], f, maxQueryNumber);
    }
  }

  /** A filter that `newFilter` has just installed on a table. */
  ghost predicate JustInstalled(s: State) {
    && Ordered(s.rows, s.tip, s.nextId)
    && s.nextId > 0
    && s.installedAt == (if s.rows == [] then 0 else s.rows[|s.rows| - 1].id)
    && s.lastPoll == s.installedAt && s.reading.None? && s.delivered == []
  }

  /**
   Whatever is appended, rolled back and polled, in any order and with appends or rollbacks between a
   poll's reads: no id is delivered twice, ids come in increasing order, and every stored matching log is
   either delivered or still ahead of the cursor.
   */
  lemma {:induction false} NeverTwiceNeverSkipped(s: State, events: seq<Event>, f: LogFilter, maxQueryNumber: nat)
    requires JustInstalled(s) && Steps(s, events, f, maxQueryNumber).Some?
    ensures var u := Steps(s, events, f, maxQueryNumber).value;
            && Increasing(u.delivered)
            && (forall row :: row in u.delivered ==> Keeps(f, row) && s.installedAt < row.id <= u.lastPoll)
            && forall row :: row in u.rows && Keeps(f, row) && u.installedAt < row.id ==>
                 row in u.delivered || row.id > u.lastPoll
  {
    if s.rows != [] {
      assert s.rows[|s.rows| - 1] in s.rows;
    }
    RunKeepsInv(s, events, f, maxQueryNumber);
    InstalledAtIsFixed(s, events, f, maxQueryNumber);
  }

  lemma {:induction false} InstalledAtIsFixed(s: State, events: seq<Event>, f: LogFilter, maxQueryNumber: nat)
    requires Steps(s, events, f, maxQueryNumber).Some?
    ensures Steps(s, events, f, maxQueryNumber).value.installedAt == s.installedAt
    decreases |events|
  {
    if events != [] {
      InstalledAtIsFixed(Step(s, events[0], f, maxQueryNumber).value, events[1..], f, maxQueryNumber);
    }
  }

  // ----- without rollbacks: exactly once -----

  predicate OnlyAppends(events: seq<Event>) {
    forall i :: 0 <= i < |events| ==> !events[i].RollbackBlock?
  }

  lemma {:induction false} DeliveredStay(s: State, events: seq<Event>, f: LogFilter, maxQueryNumber: nat)
    requires Inv(s, f) && Steps(s, events, f, maxQueryNumber).Some? && OnlyAppends(events)
    requires forall row :: row in s.delivered ==> row in s.rows
    ensures var u := Steps(s, events, f, maxQueryNumber).value; forall row :: row in u.delivered ==> row in u.rows
    decreases |events|
  {
    if events != [] {
      var t := Step(s, events[0], f, maxQueryNumber).value;
      if s.reading.Some? {
        SelectIs(s.rows, f, s.lastPoll, s.reading.value);
      }
      StepKeepsInv(s, events[0], f, maxQueryNumber);
      DeliveredStay(t, events[1..], f, maxQueryNumber);
    }
  }

  /** The matching rows with ids above `after` and up to `upTo`. */
  function Between(rows: seq<Row>, f: LogFilter, after: nat, upTo: nat): seq<Row> {
    if rows == [] then []
    else
      var last := rows[|rows| - 1];
      Between(rows[..|rows| - 1], f, after, upTo) + if Keeps(f, last) && after < last.id <= upTo then [last] else []
  }

  lemma {:induction false} BetweenIs(rows: seq<Row>, f: LogFilter, after: nat, upTo: nat)
    ensures forall row :: row in Between(rows, f, after, upTo) <==>
                            row in rows && Keeps(f, row) && after < row.id <= upTo
    ensures Increasing(rows) ==> Increasing(Between(rows, f, after, upTo))
  {
    if rows != [] {
      var init, last := rows[..|rows| - 1], rows[|rows| - 1];
      BetweenIs(init, f, after, upTo);
      Seqs.Split(rows, |rows| - 1);
      assert rows[|rows| - 1..] == [last];
      if Increasing(rows) {
        BelowLast(rows, Between(init, f, after, upTo));
      }
    }
  }

  lemma {:induction false} BelowLast(rows: seq<Row>, some: seq<Row>)
    requires Increasing(rows) && rows != []
    requires Increasing(some) && forall row :: row in some ==> row in rows[..|rows| - 1]
    ensures Increasing(some + [rows[|rows| - 1]])
  {
    forall i | 0 <= i < |some| ensures some[i].id < rows[|rows| - 1].id {
      assert some[i] in some;
    }
  }

  lemma {:induction false} MembersFit(a: seq<Row>, b: seq<Row>)
    requires Increasing(a) && Increasing(b) && forall row :: row in a ==> row in b
    ensures |a| <= |b|
    decreases |a|
  {
    if a != [] {
      var n := |a| - 1;
      assert a[n] in b;
      var j :| 0 <= j < |b| && b[j] == a[n];
      forall row | row in a[..n] ensures row in b[..j] {
        var i :| 0 <= i < n && a[i] == row;
        assert row in b;
        var k :| 0 <= k < |b| && b[k] == row;
        assert k < j;
        assert b[..j][k] == row;
      }
      MembersFit(a[..n], b[..j]);
    }
  }

  lemma {:induction false} SameMembersSameOrder(a: seq<Row>, b: seq<Row>)
    requires Increasing(a) && Increasing(b) && forall row :: row in a <==> row in b
    ensures a == b
    decreases |a|
  {
    MembersFit(a, b);
    MembersFit(b, a);
    if a != [] {
      var n := |a| - 1;
      SameTop(a, b);
      forall row ensures row in a[..n] <==> row in b[..n] {
        InInit(a, row);
        InInit(b, row);
      }
      SameMembersSameOrder(a[..n], b[..n]);
      Seqs.InitLast(a);
      Seqs.InitLast(b);
    }
  }

  lemma {:induction false} SameTop(a: seq<Row>, b: seq<Row>)
    requires Increasing(a) && Increasing(b) && forall row :: row in a <==> row in b
    requires |a| == |b| > 0
    ensures a[|a| - 1] == b[|b| - 1]
  {
    var n := |a| - 1;
    assert a[n] in a && b[n] in b;
    var i :| 0 <= i < |b| && b[i] == a[n];
    var j :| 0 <= j < |a| && a[j] == b[n];
    LastIsTop(b, i);
    LastIsTop(a, j);
  }

  lemma {:induction false} InInit(a: seq<Row>, row: Row)
    requires Increasing(a) && a != []
    ensures row in a[..|a| - 1] <==> row in a && row != a[|a| - 1]
  {
    assert a == a[..|a| - 1] + [a[|a| - 1]];
  }

  /**
   With appends only, what the polls have delivered, concatenated, is exactly the matching logs from the
   installation up to the cursor, each once and in order.
   */
  lemma {:induction false} ExactlyOnce(s: State, events: seq<Event>, f: LogFilter, maxQueryNumber: nat)
    requires JustInstalled(s) && Steps(s, events, f, maxQueryNumber).Some? && OnlyAppends(events)
    ensures var u := Steps(s, events, f, maxQueryNumber).value;
            u.delivered == Between(u.rows, f, s.installedAt, u.lastPoll)
  {
    var u := Steps(s, events, f, maxQueryNumber).value;
    if s.rows != [] {
      assert s.rows[|s.rows| - 1] in s.rows;
    }
    RunKeepsInv(s, events, f, maxQueryNumber);
    InstalledAtIsFixed(s, events, f, maxQueryNumber);
    DeliveredStay(s, events, f, maxQueryNumber);
    BetweenIs(u.rows, f, s.installedAt, u.lastPoll);
    SameMembersSameOrder(u.delivered, Between(u.rows, f, s.installedAt, u.lastPoll));
  }

  /** The method and the machine: `GetFilterChanges` is the step `EndPoll`. */
  method PollOnce(manager: FilterManager, id: string, ghost s: State, ghost f: LogFilter, rows: seq<Row>, toBlock: nat,
                  maxQueryNumber: nat)
    returns (r: Result<Changes>)
    requires manager.Valid() && id in manager.store && manager.At(id) == FilterCache(LogsOf(f), s.lastPoll)
    requires Increasing(rows) && s.rows == rows && s.reading == Some(toBlock)
    modifies manager
    ensures manager.Valid() && id in manager.store && Step(s, EndPoll, f, maxQueryNumber).Some?
    ensures var t := Step(s, EndPoll, f, maxQueryNumber).value;
            && manager.At(id) == FilterCache(LogsOf(f), t.lastPoll)
            && (r.Ok? ==> r.value.Logs? && t.delivered == s.delivered + r.value.logs)
            && (r.Err? ==> t.delivered == s.delivered)
  {
    r := manager.GetFilterChanges(id, rows, toBlock, maxQueryNumber, false, []);
  }

  /** After a poll that met no limit and no append between its reads, nothing matching is left over. */
  lemma {:induction false} PollCatchesUp(s: State, f: LogFilter, maxQueryNumber: nat)
    requires Inv(s, f) && s.reading == Some(s.tip)
    requires |Select(s.rows, f, s.lastPoll, s.tip)| <= maxQueryNumber
    ensures var u := Step(s, EndPoll, f, maxQueryNumber).value;
            forall row :: row in u.rows && Keeps(f, row) && u.installedAt < row.id ==> row in u.delivered
  {
    var u := Step(s, EndPoll, f, maxQueryNumber).value;
    SelectIs(s.rows, f, s.lastPoll, s.tip);
    PollKeepsInv(s, f, maxQueryNumber);
    forall row | row in u.rows && Keeps(f, row) && u.installedAt < row.id ensures row in u.delivered {
      if row.id > s.lastPoll {
        assert row in Select(s.rows, f, s.lastPoll, s.tip);
      }
    }
  }
}
