/**
 Indexing one block (`insert_or_update_l2block` in `indexer.rs`, and `insert_l2_block.rs`): running
 cursors over batches of transactions, rows written chunk by chunk, and the update path.

 Counters are `u32` and gas sums `u128`; the release profile keeps overflow checks, so an overflow is
 a panic, here an `Err`. A database transaction that is not committed leaves no rows behind.
 */
module Indexing {
  import opened Wrappers
  import opened Binary
  import Seqs

  // ----- what is written -----

  datatype TxColumns = TxColumns(hash: Bytes, gasLimit: nat, gasUsed: nat, cumulativeGasUsed: nat, others: Bytes)

  datatype Tx = Tx(blockNumber: nat, blockHash: Bytes, index: nat, columns: TxColumns)

  datatype LogColumns = LogColumns(transactionHash: Bytes, address: Bytes, data: Bytes, topics: seq<Bytes>)

  datatype Log = Log(blockNumber: nat, blockHash: Bytes, transactionIndex: nat, logIndex: nat, columns: LogColumns)

  datatype TxWithLogs = TxWithLogs(tx: Tx, logs: seq<Log>)

  // ----- the logs of one transaction -----

  /** The kinds of log that `parse_log` tells apart. */
  datatype GwLog =
    | SudtTransfer
    | SudtPayFee
    | PolyjuiceSystem
    | PolyjuiceUser(address: Bytes, data: Bytes, topics: seq<Bytes>)

  function UserLogs(items: seq<GwLog>): (users: seq<GwLog>)
    ensures forall k :: 0 <= k < |users| ==> users[k].PolyjuiceUser?
  {
    if items == [] then []
    else
      var last := items[|items| - 1];
      UserLogs(items[..|items| - 1]) + if last.PolyjuiceUser? then [last] else []
  }

  /** The logs as `filter_single_transaction` leaves them: numbered within the transaction. */
  function NumberedLogs(users: seq<GwLog>, txHash: Bytes, blockNumber: nat, blockHash: Bytes): (logs: seq<Log>)
    requires forall k :: 0 <= k < |users| ==> users[k].PolyjuiceUser?
    ensures |logs| == |users|
  {
    seq(|users|, k requires 0 <= k < |users| && users[k].PolyjuiceUser? =>
      Log(blockNumber, blockHash, 0, k, LogColumns(txHash, users[k].address, users[k].data, users[k].topics)))
  }

  /** The log loop of `filter_single_transaction`, over items that `parse_log` accepted. */
  method CollectLogs(items: seq<GwLog>, txHash: Bytes, blockNumber: nat, blockHash: Bytes) returns (r: Result<seq<Log>>)
    ensures r == if |UserLogs(items)| < UINT32_LIMIT
                 then Ok(NumberedLogs(UserLogs(items), txHash, blockNumber, blockHash))
                 else Err("panic: attempt to add with overflow")
  {
    var logs: seq<Log> := [];
    var logIndex := 0;
    for i := 0 to |items|
      invariant logIndex == |UserLogs(items[..i])| < UINT32_LIMIT
      invariant logs == NumberedLogs(UserLogs(items[..i]), txHash, blockNumber, blockHash)
    {
      assert items[..i + 1][..i] == items[..i];
      match items[i] {
        case PolyjuiceUser(address, data, topics) =>
          logs := logs + [Log(blockNumber, blockHash, 0, logIndex, LogColumns(txHash, address, data, topics))];
          logIndex := logIndex + 1;
          if logIndex >= UINT32_LIMIT {
            UserLogsGrow(items, i + 1);
            return Err("panic: attempt to add with overflow");
          }
        case _ =>
      }
    }
    assert items[..|items|] == items;
    return Ok(logs);
  }

  lemma {:induction false} UserLogsGrow(items: seq<GwLog>, i: nat)
    requires i <= |items|
    ensures |UserLogs(items[..i])| <= |UserLogs(items)|
    decreases |items|
  {
    if i < |items| {
      UserLogsGrow(items[..|items| - 1], i);
      assert items[..|items| - 1][..i] == items[..i];
    } else {
      assert items[..i] == items;
    }
  }

  /** What `filter_single_transaction` returns for a transaction it keeps. */
  ghost predicate FromFilter(t: TxWithLogs, blockNumber: nat) {
    && t.tx.blockNumber == blockNumber
    && |t.logs| < UINT32_LIMIT
    && forall j :: 0 <= j < |t.logs| ==>
         && t.logs[j].blockNumber == blockNumber
         && t.logs[j].logIndex == j
         && t.logs[j].columns.transactionHash == t.tx.columns.hash
  }

  /** The end of the Polyjuice branch of `filter_single_transaction`: the row with its logs; index 0 stands in. */
  method KeepTransaction(blockNumber: nat, blockHash: Bytes, columns: TxColumns, items: seq<GwLog>)
    returns (r: Result<TxWithLogs>)
    ensures r.Ok? <==> |UserLogs(items)| < UINT32_LIMIT
    ensures r.Ok? ==> FromFilter(r.value, blockNumber)
    ensures r.Ok? ==> r.value.tx == Tx(blockNumber, blockHash, 0, columns)
    ensures r.Ok? ==> r.value.logs == NumberedLogs(UserLogs(items), columns.hash, blockNumber, blockHash)
  {
    var logs := CollectLogs(items, columns.hash, blockNumber, blockHash);
    if logs.Err? {
      return Err(logs.reason);
    }
    return Ok(TxWithLogs(Tx(blockNumber, blockHash, 0, columns), logs.value));
  }

  // ----- one pass over the block -----

  function LogCount(txs: seq<TxWithLogs>): nat {
    if txs == [] then 0 else LogCount(txs[..|txs| - 1]) + |txs[|txs| - 1].logs|
  }

  function GasUsed(txs: seq<TxWithLogs>): nat {
    if txs == [] then 0 else GasUsed(txs[..|txs| - 1]) + txs[|txs| - 1].tx.columns.gasUsed
  }

  function GasLimit(txs: seq<TxWithLogs>): nat {
    if txs == [] then 0 else GasLimit(txs[..|txs| - 1]) + txs[|txs| - 1].tx.columns.gasLimit
  }

  function PlaceLogs(logs: seq<Log>, i: nat, logStart: nat): (p: seq<Log>)
    ensures |p| == |logs|
  {
    seq(|logs|, j requires 0 <= j < |logs| => logs[j].(transactionIndex := i, logIndex := logs[j].logIndex + logStart))
  }

  /** Transaction `i` of the block, `logStart` logs and `gasBefore` gas after its start. */
  function Place(t: TxWithLogs, i: nat, logStart: nat, gasBefore: nat): (p: TxWithLogs)
    ensures |p.logs| == |t.logs|
  {
    TxWithLogs(
      t.tx.(index := i, columns := t.tx.columns.(cumulativeGasUsed := gasBefore + t.tx.columns.gasUsed)),
      PlaceLogs(t.logs, i, logStart))
  }

  function OnePass(txs: seq<TxWithLogs>): (placed: seq<TxWithLogs>)
    ensures |placed| == |txs|
  {
    if txs == [] then []
    else
      var init := txs[..|txs| - 1];
      OnePass(init) + [Place(txs[|txs| - 1], |init|, LogCount(init), GasUsed(init))]
  }

  /** The totals that fit the counters. */
  predicate Fits(txs: seq<TxWithLogs>) {
    && |txs| < UINT32_LIMIT
    && LogCount(txs) < UINT32_LIMIT
    && GasUsed(txs) < UINT128_LIMIT
    && GasLimit(txs) < UINT128_LIMIT
  }

  function Survivors(outcomes: seq<Result<Option<TxWithLogs>>>): seq<TxWithLogs>
    requires AllOk(outcomes)
  {
    if outcomes == [] then []
    else
      var last := outcomes[|outcomes| - 1].value;
      Survivors(outcomes[..|outcomes| - 1]) + if last.Some? then [last.value] else []
  }

  predicate AllOk(outcomes: seq<Result<Option<TxWithLogs>>>) {
    forall i :: 0 <= i < |outcomes| ==> outcomes[i].Ok?
  }

  /** No transaction brings more logs than its own 32-bit counter can number. */
  predicate Countable(outcomes: seq<Result<Option<TxWithLogs>>>) {
    forall i :: 0 <= i < |outcomes| && outcomes[i].Ok? && outcomes[i].value.Some? ==>
      |outcomes[i].value.value.logs| < UINT32_LIMIT
  }

  // ----- what the one pass gives -----

  lemma {:induction false} OnePassPrefix(txs: seq<TxWithLogs>, i: nat)
    requires i <= |txs|
    ensures OnePass(txs)[..i] == OnePass(txs[..i])
    decreases |txs|
  {
    if i < |txs| {
      var init := txs[..|txs| - 1];
      OnePassPrefix(init, i);
      assert init[..i] == txs[..i];
      assert OnePass(txs)[..i] == OnePass(init)[..i];
    } else {
      assert txs[..i] == txs;
    }
  }

  /** Transactions are numbered in order, and cumulative gas is the prefix sum. */
  lemma {:induction false} OnePassAt(txs: seq<TxWithLogs>, i: nat)
    requires i < |txs|
    ensures OnePass(txs)[i] == Place(txs[i], i, LogCount(txs[..i]), GasUsed(txs[..i]))
    ensures OnePass(txs)[i].tx.index == i
    ensures OnePass(txs)[i].tx.columns.cumulativeGasUsed == GasUsed(txs[..i + 1])
  {
    OnePassPrefix(txs, i + 1);
    assert txs[..i + 1][..i] == txs[..i];
    assert OnePass(txs)[i] == OnePass(txs)[..i + 1][i];
  }

  /** All logs of the block in order, each with the position of its transaction. */
  function FlatLogs(txs: seq<TxWithLogs>): seq<(nat, Log)> {
    if txs == [] then [] else FlatLogs(txs[..|txs| - 1]) + Tagged(|txs| - 1, txs[|txs| - 1].logs)
  }

  function Tagged(i: nat, logs: seq<Log>): (tagged: seq<(nat, Log)>)
    ensures |tagged| == |logs|
  {
    seq(|logs|, j requires 0 <= j < |logs| => (i, logs[j]))
  }

  lemma {:induction false} FlatLogsSize(txs: seq<TxWithLogs>)
    ensures |FlatLogs(txs)| == LogCount(txs)
  {
    if txs != [] {
      FlatLogsSize(txs[..|txs| - 1]);
    }
  }

  lemma {:induction false} LogCountOfOnePass(txs: seq<TxWithLogs>)
    ensures LogCount(OnePass(txs)) == LogCount(txs)
  {
    if txs != [] {
      var init := txs[..|txs| - 1];
      LogCountOfOnePass(init);
      assert OnePass(txs)[..|txs| - 1] == OnePass(init);
    }
  }

  /** Logs are numbered through the whole block in order, and each carries its transaction's number. */
  lemma {:induction false} OnePassLogs(txs: seq<TxWithLogs>, blockNumber: nat, k: nat)
    requires forall i :: 0 <= i < |txs| ==> FromFilter(txs[i], blockNumber)
    requires k < |FlatLogs(OnePass(txs))|
    ensures |FlatLogs(OnePass(txs))| == LogCount(txs)
    ensures var (i, log) := FlatLogs(OnePass(txs))[k];
            && i < |txs|
            && log.logIndex == k
            && log.transactionIndex == i
            && log.blockNumber == blockNumber
            && log.columns.transactionHash == OnePass(txs)[i].tx.columns.hash
  {
    FlatLogsSize(OnePass(txs));
    LogCountOfOnePass(txs);
    var init, n := txs[..|txs| - 1], |txs| - 1;
    FlatLogsSize(OnePass(init));
    LogCountOfOnePass(init);
    assert OnePass(txs)[..n] == OnePass(init);
    if k < |FlatLogs(OnePass(init))| {
      OnePassLogs(init, blockNumber, k);
    } else {
      assert FromFilter(txs[n], blockNumber);
      assert OnePass(txs)[n] == Place(txs[n], n, LogCount(init), GasUsed(init));
    }
  }

  // ----- batches -----

  lemma {:induction false} SumsOfConcat(a: seq<TxWithLogs>, b: seq<TxWithLogs>)
    ensures LogCount(a + b) == LogCount(a) + LogCount(b)
    ensures GasUsed(a + b) == GasUsed(a) + GasUsed(b)
    ensures GasLimit(a + b) == GasLimit(a) + GasLimit(b)
    decreases |b|
  {
    if b == [] {
      assert a + b == a;
    } else {
      SumsOfConcat(a, b[..|b| - 1]);
      Seqs.InitOfConcat(a, b);
    }
  }

  lemma {:induction false} SumsOfSnoc(a: seq<TxWithLogs>, t: TxWithLogs)
    ensures LogCount(a + [t]) == LogCount(a) + |t.logs|
    ensures GasUsed(a + [t]) == GasUsed(a) + t.tx.columns.gasUsed
    ensures GasLimit(a + [t]) == GasLimit(a) + t.tx.columns.gasLimit
    ensures OnePass(a + [t]) == OnePass(a) + [Place(t, |a|, LogCount(a), GasUsed(a))]
  {
    assert (a + [t])[..|a|] == a;
  }

  lemma {:induction false} SurvivorsOfConcat(a: seq<Result<Option<TxWithLogs>>>, b: seq<Result<Option<TxWithLogs>>>)
    requires AllOk(a) && AllOk(b)
    ensures AllOk(a + b) && Survivors(a + b) == Survivors(a) + Survivors(b)
    decreases |b|
  {
    if b == [] {
      assert a + b == a;
    } else {
      SurvivorsOfConcat(a, b[..|b| - 1]);
      Seqs.InitOfConcat(a, b);
    }
  }

  /** The cursors that are carried from batch to batch. */
  datatype Cursors = Cursors(txIndex: nat, logIndex: nat, cumulativeGasUsed: nat, totalGasLimit: nat)

  function CursorsAfter(txs: seq<TxWithLogs>): Cursors {
    Cursors(|txs|, LogCount(txs), GasUsed(txs), GasLimit(txs))
  }

  /** The numbered transactions of a batch, and the cursors, after the transactions `seen`. */
  ghost predicate Numbered(done: seq<TxWithLogs>, seen: seq<TxWithLogs>, placed: seq<TxWithLogs>, c: Cursors) {
    && |seen| == |done| + |placed|
    && c == CursorsAfter(seen)
    && OnePass(seen) == OnePass(done) + placed
  }

  lemma {:induction false} NumberNext(done: seq<TxWithLogs>, seen: seq<TxWithLogs>, placed: seq<TxWithLogs>, c: Cursors,
                                      t: TxWithLogs)
    requires Numbered(done, seen, placed, c)
    ensures Numbered(done, seen + [t], placed + [Place(t, c.txIndex, c.logIndex, c.cumulativeGasUsed)], Advance(c, t))
  {
    SumsOfSnoc(seen, t);
    Seqs.Assoc(OnePass(done), placed, [Place(t, c.txIndex, c.logIndex, c.cumulativeGasUsed)]);
  }

  /** The cursors after one more transaction. */
  function Advance(c: Cursors, t: TxWithLogs): Cursors {
    Cursors(c.txIndex + 1, c.logIndex + |t.logs|, c.cumulativeGasUsed + t.tx.columns.gasUsed,
            c.totalGasLimit + t.tx.columns.gasLimit)
  }

  /** The counters hold these cursors; `txIndex` may just have passed the last index. */
  predicate InRange(c: Cursors) {
    && c.txIndex <= UINT32_LIMIT
    && c.logIndex < UINT32_LIMIT
    && c.cumulativeGasUsed < UINT128_LIMIT
    && c.totalGasLimit < UINT128_LIMIT
  }

  /** The closure that numbers one transaction, in the order of its statements. */
  method NumberOne(t: TxWithLogs, c: Cursors) returns (r: Result<(TxWithLogs, Cursors)>)
    requires |t.logs| < UINT32_LIMIT && InRange(c)
    ensures r == if InRange(Advance(c, t))
                 then Ok((Place(t, c.txIndex, c.logIndex, c.cumulativeGasUsed), Advance(c, t)))
                 else Err("panic: attempt to add with overflow")
  {
    var transactionIndex := c.txIndex;
    if transactionIndex >= UINT32_LIMIT {
      return Err("panic: attempt to add with overflow");
    }
    var logs := Renumber(t.logs, transactionIndex, c.logIndex);
    var cumulativeGasUsed := c.cumulativeGasUsed + t.tx.columns.gasUsed;
    if cumulativeGasUsed >= UINT128_LIMIT {
      return Err("panic: attempt to add with overflow");
    }
    var totalGasLimit := c.totalGasLimit + t.tx.columns.gasLimit;
    if totalGasLimit >= UINT128_LIMIT {
      return Err("panic: attempt to add with overflow");
    }
    var logIndex := c.logIndex + |t.logs|;
    if logIndex >= UINT32_LIMIT {
      return Err("panic: attempt to add with overflow");
    }
    var tx := t.tx.(index := transactionIndex, columns := t.tx.columns.(cumulativeGasUsed := cumulativeGasUsed));
    return Ok((TxWithLogs(tx, logs), Cursors(transactionIndex + 1, logIndex, cumulativeGasUsed, totalGasLimit)));
  }

  method Renumber(logs: seq<Log>, transactionIndex: nat, logIndexCursor: nat) returns (r: seq<Log>)
    ensures r == PlaceLogs(logs, transactionIndex, logIndexCursor)
  {
    r := [];
    for j := 0 to |logs|
      invariant |r| == j
      invariant forall k :: 0 <= k < j ==>
                  r[k] == logs[k].(transactionIndex := transactionIndex, logIndex := logs[k].logIndex + logIndexCursor)
    {
      r := r + [logs[j].(transactionIndex := transactionIndex, logIndex := logs[j].logIndex + logIndexCursor)];
    }
  }

  /** One batch: filter results, then the enumerating closure over the transactions that are left. */
  method NumberBatch(batch: seq<Result<Option<TxWithLogs>>>, c: Cursors, ghost done: seq<TxWithLogs>)
    returns (r: Result<(seq<TxWithLogs>, Cursors)>)
    requires |batch| < UINT32_LIMIT && Fits(done) && c == CursorsAfter(done)
    requires Countable(batch)
    ensures r.Ok? <==> AllOk(batch) && Fits(done + Survivors(batch))
    ensures r.Ok? ==> Numbered(done, done + Survivors(batch), r.value.0, r.value.1)
  {
    hide Place, Advance, GasUsed, GasLimit, LogCount, OnePass;
    if exists i :: 0 <= i < |batch| && batch[i].Err? {
      return Err("filter_single_transaction");
    }
    var placed: seq<TxWithLogs> := [];
    var cursors := c;
    ghost var seen := done;
    assert done + Survivors(batch[..0]) == done;
    for i := 0 to |batch|
      invariant seen == done + Survivors(batch[..i])
      invariant Numbered(done, seen, placed, cursors) && InRange(cursors)
    {
      assert batch[..i + 1][..i] == batch[..i];
      if batch[i].value.Some? {
        var t := batch[i].value.value;
        NumberNext(done, seen, placed, cursors, t);
        Seqs.Assoc(done, Survivors(batch[..i]), [t]);
        seen := seen + [t];
        var one := NumberOne(t, cursors);
        if one.Err? {
          FitsIsMonotone(batch, i + 1, done);
          return Err(one.reason);
        }
        placed := placed + [one.value.0];
        cursors := one.value.1;
      }
    }
    assert batch[..|batch|] == batch;
    if cursors.txIndex >= UINT32_LIMIT {
      return Err("panic: attempt to add with overflow");
    }
    return Ok((placed, cursors));
  }

  /** Totals that are too large for some of the transactions are too large for all of them. */
  lemma {:induction false} FitsIsMonotone(batch: seq<Result<Option<TxWithLogs>>>, i: nat, done: seq<TxWithLogs>)
    requires AllOk(batch) && i <= |batch|
    ensures Fits(done + Survivors(batch)) ==> Fits(done + Survivors(batch[..i]))
  {
    Seqs.Split(batch, i);
    SurvivorsOfConcat(batch[..i], batch[i..]);
    Seqs.Assoc(done, Survivors(batch[..i]), Survivors(batch[i..]));
    SumsOfConcat(done + Survivors(batch[..i]), Survivors(batch[i..]));
  }

  // ----- rows -----

  datatype TxRow = TxRow(id: nat, tx: Tx)

  datatype LogRow = LogRow(id: nat, transactionId: nat, log: Log)

  datatype BlockRow = BlockRow(hash: Bytes, gasLimit: nat, gasUsed: nat)

  function TxRows(txs: seq<TxWithLogs>, firstId: nat): (rows: seq<TxRow>)
    ensures |rows| == |txs|
  {
    seq(|txs|, i requires 0 <= i < |txs| => TxRow(firstId + i, txs[i].tx))
  }

  function RowsOf(flat: seq<(nat, Log)>, firstTxId: nat, firstLogId: nat): (rows: seq<LogRow>)
    ensures |rows| == |flat|
  {
    seq(|flat|, k requires 0 <= k < |flat| => LogRow(firstLogId + k, firstTxId + flat[k].0, flat[k].1))
  }

  function LogRows(txs: seq<TxWithLogs>, firstTxId: nat, firstLogId: nat): seq<LogRow> {
    RowsOf(FlatLogs(txs), firstTxId, firstLogId)
  }

  /**
   Every inserted log points at the inserted row of its own transaction: the row whose hash is the log's
   transaction hash.
   */
  lemma {:induction false} LogsPointAtTheirTransaction(txs: seq<TxWithLogs>, blockNumber: nat, firstTxId: nat,
                                                       firstLogId: nat, k: nat)
    requires forall i :: 0 <= i < |txs| ==> FromFilter(txs[i], blockNumber)
    requires k < |LogRows(OnePass(txs), firstTxId, firstLogId)|
    ensures var log, rows := LogRows(OnePass(txs), firstTxId, firstLogId)[k], TxRows(OnePass(txs), firstTxId);
            exists i :: 0 <= i < |rows| && rows[i].id == log.transactionId
                        && rows[i].tx.columns.hash == log.log.columns.transactionHash
                        && rows[i].tx.index == log.log.transactionIndex
  {
    OnePassLogs(txs, blockNumber, k);
    var i := FlatLogs(OnePass(txs))[k].0;
    OnePassAt(txs, i);
    assert TxRows(OnePass(txs), firstTxId)[i].id == LogRows(OnePass(txs), firstTxId, firstLogId)[k].transactionId;
  }

  lemma {:induction false} TxRowsOfConcat(a: seq<TxWithLogs>, b: seq<TxWithLogs>, firstId: nat)
    ensures TxRows(a + b, firstId) == TxRows(a, firstId) + TxRows(b, firstId + |a|)
  {
  }

  function Shifted(flat: seq<(nat, Log)>, offset: nat): (s: seq<(nat, Log)>)
    ensures |s| == |flat|
  {
    seq(|flat|, k requires 0 <= k < |flat| => (flat[k].0 + offset, flat[k].1))
  }

  lemma {:induction false} FlatLogsOfConcat(a: seq<TxWithLogs>, b: seq<TxWithLogs>)
    ensures FlatLogs(a + b) == FlatLogs(a) + Shifted(FlatLogs(b), |a|)
    decreases |b|
  {
    if b == [] {
      assert a + b == a;
    } else {
      var init, last := b[..|b| - 1], b[|b| - 1];
      FlatLogsOfConcat(a, init);
      Seqs.InitOfConcat(a, b);
      assert Shifted(FlatLogs(init) + Tagged(|init|, last.logs), |a|)
          == Shifted(FlatLogs(init), |a|) + Tagged(|a| + |init|, last.logs);
    }
  }

  lemma {:induction false} LogRowsOfConcat(a: seq<TxWithLogs>, b: seq<TxWithLogs>, firstTxId: nat, firstLogId: nat)
    ensures LogRows(a + b, firstTxId, firstLogId)
         == LogRows(a, firstTxId, firstLogId) + LogRows(b, firstTxId + |a|, firstLogId + LogCount(a))
  {
    FlatLogsOfConcat(a, b);
    FlatLogsSize(a);
  }

  // ----- updating rows -----

  predicate SameTxKey(row: TxRow, u: Tx) {
    row.tx.blockNumber == u.blockNumber && row.tx.index == u.index
  }

  predicate SameLogKey(row: LogRow, u: Log) {
    row.log.blockNumber == u.blockNumber && row.log.logIndex == u.logIndex
  }

  /** A row after the given UPDATE statements. */
  function UpdatedTx(row: TxRow, us: seq<Tx>): TxRow {
    if us == [] then row
    else
      var before := UpdatedTx(row, us[..|us| - 1]);
      var u := us[|us| - 1];
      if SameTxKey(before, u) then before.(tx := before.tx.(columns := u.columns)) else before
  }

  function UpdatedLog(row: LogRow, us: seq<Log>): LogRow {
    if us == [] then row
    else
      var before := UpdatedLog(row, us[..|us| - 1]);
      var u := us[|us| - 1];
      if SameLogKey(before, u) then before.(log := before.log.(columns := u.columns)) else before
  }

  function UpdatedTxs(rows: seq<TxRow>, us: seq<Tx>): (r: seq<TxRow>)
    ensures |r| == |rows|
  {
    seq(|rows|, k requires 0 <= k < |rows| => UpdatedTx(rows[k], us))
  }

  function UpdatedLogs(rows: seq<LogRow>, us: seq<Log>): (r: seq<LogRow>)
    ensures |r| == |rows|
  {
    seq(|rows|, k requires 0 <= k < |rows| => UpdatedLog(rows[k], us))
  }

  lemma {:induction false} UpdatedLogConcat(row: LogRow, a: seq<Log>, b: seq<Log>)
    ensures UpdatedLog(row, a + b) == UpdatedLog(UpdatedLog(row, a), b)
    decreases |b|
  {
    if b == [] {
      assert a + b == a;
    } else {
      UpdatedLogConcat(row, a, b[..|b| - 1]);
      Seqs.InitOfConcat(a, b);
    }
  }

  lemma {:induction false} UpdatedLogsConcat(rows: seq<LogRow>, a: seq<Log>, b: seq<Log>)
    ensures UpdatedLogs(rows, a + b) == UpdatedLogs(UpdatedLogs(rows, a), b)
  {
    forall k | 0 <= k < |rows| ensures UpdatedLog(rows[k], a + b) == UpdatedLog(UpdatedLog(rows[k], a), b) {
      UpdatedLogConcat(rows[k], a, b);
    }
  }

  lemma {:induction false} UpdatedTxConcat(row: TxRow, a: seq<Tx>, b: seq<Tx>)
    ensures UpdatedTx(row, a + b) == UpdatedTx(UpdatedTx(row, a), b)
    decreases |b|
  {
    if b == [] {
      assert a + b == a;
    } else {
      UpdatedTxConcat(row, a, b[..|b| - 1]);
      Seqs.InitOfConcat(a, b);
    }
  }

  lemma {:induction false} UpdatedTxsConcat(rows: seq<TxRow>, a: seq<Tx>, b: seq<Tx>)
    ensures UpdatedTxs(rows, a + b) == UpdatedTxs(UpdatedTxs(rows, a), b)
  {
    forall k | 0 <= k < |rows| ensures UpdatedTx(rows[k], a + b) == UpdatedTx(UpdatedTx(rows[k], a), b) {
      UpdatedTxConcat(rows[k], a, b);
    }
  }

  ghost predicate DistinctLogKeys(us: seq<Log>) {
    forall i, j :: 0 <= i < j < |us| ==> us[i].blockNumber != us[j].blockNumber || us[i].logIndex != us[j].logIndex
  }

  lemma {:induction false} UpdatedLogIs(row: LogRow, us: seq<Log>)
    requires DistinctLogKeys(us)
    ensures UpdatedLog(row, us).id == row.id && UpdatedLog(row, us).transactionId == row.transactionId
    ensures UpdatedLog(row, us).log == row.log.(columns := UpdatedLog(row, us).log.columns)
    ensures forall u :: u in us && SameLogKey(row, u) ==> UpdatedLog(row, us).log.columns == u.columns
    ensures (forall u :: u in us ==> !SameLogKey(row, u)) ==> UpdatedLog(row, us) == row
  {
    if us != [] {
      var init := us[..|us| - 1];
      UpdatedLogIs(row, init);
      forall u | u in us && SameLogKey(row, u) ensures UpdatedLog(row, us).log.columns == u.columns {
        var i :| 0 <= i < |us| && us[i] == u;
        if i < |us| - 1 {
          assert init[i] == u;
          assert !SameLogKey(row, us[|us| - 1]);
        }
      }
      if forall u :: u in us ==> !SameLogKey(row, u) {
        assert us[|us| - 1] in us;
        assert forall u :: u in init ==> u in us;
      }
    }
  }

  /** The parallel chunks commute: with distinct keys, any order of the same updates gives the same row. */
  lemma {:induction false} UpdateOrderIsIrrelevant(row: LogRow, a: seq<Log>, b: seq<Log>)
    requires DistinctLogKeys(a) && DistinctLogKeys(b)
    requires forall u :: u in a <==> u in b
    ensures UpdatedLog(row, a) == UpdatedLog(row, b)
  {
    UpdatedLogIs(row, a);
    UpdatedLogIs(row, b);
    if u :| u in a && SameLogKey(row, u) {
      assert UpdatedLog(row, a).log.columns == u.columns == UpdatedLog(row, b).log.columns;
    }
  }

  ghost predicate DistinctTxKeys(us: seq<Tx>) {
    forall i, j :: 0 <= i < j < |us| ==> us[i].blockNumber != us[j].blockNumber || us[i].index != us[j].index
  }

  lemma {:induction false} UpdatedTxIs(row: TxRow, us: seq<Tx>)
    requires DistinctTxKeys(us)
    ensures UpdatedTx(row, us) == row.(tx := row.tx.(columns := UpdatedTx(row, us).tx.columns))
    ensures forall u :: u in us && SameTxKey(row, u) ==> UpdatedTx(row, us).tx.columns == u.columns
    ensures (forall u :: u in us ==> !SameTxKey(row, u)) ==> UpdatedTx(row, us) == row
  {
    if us != [] {
      var init := us[..|us| - 1];
      UpdatedTxIs(row, init);
      forall u | u in us && SameTxKey(row, u) ensures UpdatedTx(row, us).tx.columns == u.columns {
        var i :| 0 <= i < |us| && us[i] == u;
        if i < |us| - 1 {
          assert init[i] == u;
          assert !SameTxKey(row, us[|us| - 1]);
        }
      }
      if forall u :: u in us ==> !SameTxKey(row, u) {
        assert us[|us| - 1] in us;
        assert forall u :: u in init ==> u in us;
      }
    }
  }

  /** So do the updates of the transactions, which are all sent at once. */
  lemma {:induction false} TxUpdateOrderIsIrrelevant(row: TxRow, a: seq<Tx>, b: seq<Tx>)
    requires DistinctTxKeys(a) && DistinctTxKeys(b)
    requires forall u :: u in a <==> u in b
    ensures UpdatedTx(row, a) == UpdatedTx(row, b)
  {
    UpdatedTxIs(row, a);
    UpdatedTxIs(row, b);
    if u :| u in a && SameTxKey(row, u) {
      assert UpdatedTx(row, a).tx.columns == u.columns == UpdatedTx(row, b).tx.columns;
    }
  }

  /** Updating a row with what it already holds leaves it alone. */
  lemma {:induction false} UpdatedTxSame(row: TxRow, us: seq<Tx>)
    requires forall u :: u in us && SameTxKey(row, u) ==> u.columns == row.tx.columns
    ensures UpdatedTx(row, us) == row
  {
    if us != [] {
      assert forall u :: u in us[..|us| - 1] ==> u in us;
      UpdatedTxSame(row, us[..|us| - 1]);
      assert us[|us| - 1] in us;
    }
  }

  lemma {:induction false} UpdatedLogSame(row: LogRow, us: seq<Log>)
    requires forall u :: u in us && SameLogKey(row, u) ==> u.columns == row.log.columns
    ensures UpdatedLog(row, us) == row
  {
    if us != [] {
      assert forall u :: u in us[..|us| - 1] ==> u in us;
      UpdatedLogSame(row, us[..|us| - 1]);
      assert us[|us| - 1] in us;
    }
  }

  function TxsOf(txs: seq<TxWithLogs>): (r: seq<Tx>)
    ensures |r| == |txs|
  {
    seq(|txs|, i requires 0 <= i < |txs| => txs[i].tx)
  }

  function LogsOf(txs: seq<TxWithLogs>): seq<Log> {
    if txs == [] then [] else LogsOf(txs[..|txs| - 1]) + txs[|txs| - 1].logs
  }

  lemma {:induction false} LogsOfConcat(a: seq<TxWithLogs>, b: seq<TxWithLogs>)
    ensures LogsOf(a + b) == LogsOf(a) + LogsOf(b)
    decreases |b|
  {
    if b == [] {
      assert a + b == a;
    } else {
      LogsOfConcat(a, b[..|b| - 1]);
      Seqs.InitOfConcat(a, b);
      Seqs.Assoc(LogsOf(a), LogsOf(b[..|b| - 1]), b[|b| - 1].logs);
    }
  }

  lemma {:induction false} LogsOfFlat(txs: seq<TxWithLogs>)
    ensures |LogsOf(txs)| == |FlatLogs(txs)|
    ensures forall k :: 0 <= k < |LogsOf(txs)| ==> LogsOf(txs)[k] == FlatLogs(txs)[k].1
  {
    if txs != [] {
      LogsOfFlat(txs[..|txs| - 1]);
    }
  }

  // ----- the database -----

  /** The three tables, and the sequences that number the rows. */
  class Database {
    var txs: seq<TxRow>
    var logs: seq<LogRow>
    var blocks: map<nat, BlockRow>
    var nextTxId: nat
    var nextLogId: nat

    constructor ()
      ensures txs == [] && logs == [] && blocks == map[]
    {
      txs, logs, blocks, nextTxId, nextLogId := [], [], map[], 1, 1;
    }

    /** `insert_web3_txs_and_logs`: the rows of the transactions, then the logs chunk by chunk. */
    method InsertTxsAndLogs(batch: seq<TxWithLogs>, chunkSize: nat) returns (txsLen: nat, logsLen: nat)
      requires chunkSize >= 1
      modifies this
      ensures txs == old(txs) + TxRows(batch, old(nextTxId))
      ensures logs == old(logs) + LogRows(batch, old(nextTxId), old(nextLogId))
      ensures blocks == old(blocks)
      ensures nextTxId == old(nextTxId) + |batch| && nextLogId == old(nextLogId) + LogCount(batch)
      ensures txsLen == |batch| && logsLen == LogCount(batch)
    {
      FlatLogsSize(batch);
      if |batch| == 0 {
        return 0, 0;
      }
      var dbLogs := Enumerate(batch);
      ghost var firstTxId := nextTxId;
      var txIds := InsertTxs(batch);
      TagsInRange(batch);
      InsertLogs(dbLogs, txIds, firstTxId, chunkSize);
      return |batch|, |dbLogs|;
    }

    /** The log rows, one INSERT a chunk. */
    method InsertLogs(dbLogs: seq<(nat, Log)>, txIds: seq<nat>, ghost firstTxId: nat, chunkSize: nat)
      requires chunkSize >= 1
      requires forall k :: 0 <= k < |dbLogs| ==> dbLogs[k].0 < |txIds|
      requires forall i :: 0 <= i < |txIds| ==> txIds[i] == firstTxId + i
      modifies this`logs, this`nextLogId
      ensures logs == old(logs) + RowsOf(dbLogs, firstTxId, old(nextLogId))
      ensures nextLogId == old(nextLogId) + |dbLogs|
    {
      var start := 0;
      while start < |dbLogs|
        invariant 0 <= start <= |dbLogs|
        invariant logs == old(logs) + RowsOf(dbLogs[..start], firstTxId, old(nextLogId))
        invariant nextLogId == old(nextLogId) + start
      {
        var end := if start + chunkSize < |dbLogs| then start + chunkSize else |dbLogs|;
        InsertLogChunk(dbLogs[start..end], txIds, firstTxId);
        RowsOfChunk(dbLogs, start, end, firstTxId, old(nextLogId));
        start := end;
      }
      assert dbLogs[..start] == dbLogs;
    }

    /** One INSERT of transaction rows; the ids come back in insertion order. */
    method InsertTxs(batch: seq<TxWithLogs>) returns (txIds: seq<nat>)
      modifies this`txs, this`nextTxId
      ensures txs == old(txs) + TxRows(batch, old(nextTxId))
      ensures nextTxId == old(nextTxId) + |batch|
      ensures txIds == seq(|batch|, i => old(nextTxId) + i)
    {
      txIds := [];
      for i := 0 to |batch|
        invariant nextTxId == old(nextTxId) + i
        invariant txs == old(txs) + TxRows(batch[..i], old(nextTxId))
        invariant txIds == seq(i, k => old(nextTxId) + k)
      {
        assert TxRows(batch[..i + 1], old(nextTxId))
            == TxRows(batch[..i], old(nextTxId)) + [TxRow(nextTxId, batch[i].tx)];
        txs := txs + [TxRow(nextTxId, batch[i].tx)];
        txIds := txIds + [nextTxId];
        nextTxId := nextTxId + 1;
      }
      assert batch[..|batch|] == batch;
    }

    /** One INSERT of log rows; the batch index in each log is replaced by the id of its transaction's row. */
    method InsertLogChunk(chunk: seq<(nat, Log)>, txIds: seq<nat>, ghost firstTxId: nat)
      requires forall k :: 0 <= k < |chunk| ==> chunk[k].0 < |txIds|
      requires forall i :: 0 <= i < |txIds| ==> txIds[i] == firstTxId + i
      modifies this`logs, this`nextLogId
      ensures logs == old(logs) + RowsOf(chunk, firstTxId, old(nextLogId))
      ensures nextLogId == old(nextLogId) + |chunk|
    {
      for k := 0 to |chunk|
        invariant nextLogId == old(nextLogId) + k
        invariant logs == old(logs) + RowsOf(chunk[..k], firstTxId, old(nextLogId))
      {
        var transactionId := txIds[chunk[k].0];
        assert RowsOf(chunk[..k + 1], firstTxId, old(nextLogId))
            == RowsOf(chunk[..k], firstTxId, old(nextLogId)) + [LogRow(nextLogId, transactionId, chunk[k].1)];
        logs := logs + [LogRow(nextLogId, transactionId, chunk[k].1)];
        nextLogId := nextLogId + 1;
      }
      assert chunk[..|chunk|] == chunk;
    }

    /** `update_web3_txs_and_logs`: one UPDATE a transaction, one a chunk of logs. */
    method UpdateTxsAndLogs(batch: seq<TxWithLogs>, chunkSize: nat) returns (txsLen: nat, logsLen: nat)
      requires chunkSize >= 1
      modifies this`txs, this`logs
      ensures txs == UpdatedTxs(old(txs), TxsOf(batch))
      ensures logs == UpdatedLogs(old(logs), LogsOf(batch))
      ensures txsLen == |batch| && logsLen == LogCount(batch)
    {
      LogsOfFlat(batch);
      FlatLogsSize(batch);
      UpdateTxs(TxsOf(batch));
      UpdateLogs(LogsOf(batch), chunkSize);
      return |batch|, |LogsOf(batch)|;
    }

    method UpdateTxs(us: seq<Tx>)
      modifies this`txs
      ensures txs == UpdatedTxs(old(txs), us)
    {
      for i := 0 to |us|
        invariant txs == UpdatedTxs(old(txs), us[..i])
      {
        Seqs.Snoc(us, i);
        UpdatedTxsConcat(old(txs), us[..i], [us[i]]);
        txs := UpdatedTxs(txs, [us[i]]);
      }
      assert us[..|us|] == us;
    }

    method UpdateLogs(ls: seq<Log>, chunkSize: nat)
      requires chunkSize >= 1
      modifies this`logs
      ensures logs == UpdatedLogs(old(logs), ls)
    {
      var start := 0;
      while start < |ls|
        invariant 0 <= start <= |ls|
        invariant logs == UpdatedLogs(old(logs), ls[..start])
      {
        var end := if start + chunkSize < |ls| then start + chunkSize else |ls|;
        Seqs.Join(ls, 0, start, end);
        assert ls[0..start] == ls[..start] && ls[0..end] == ls[..end];
        UpdatedLogsConcat(old(logs), ls[..start], ls[start..end]);
        logs := UpdatedLogs(logs, ls[start..end]);
        start := end;
      }
      assert ls[..|ls|] == ls;
    }
  }

  /** `enumerate` and `flatten`: each log with the position of its transaction in the batch. */
  method Enumerate(batch: seq<TxWithLogs>) returns (dbLogs: seq<(nat, Log)>)
    ensures dbLogs == FlatLogs(batch)
  {
    dbLogs := [];
    for i := 0 to |batch|
      invariant dbLogs == FlatLogs(batch[..i])
    {
      assert batch[..i + 1][..i] == batch[..i];
      dbLogs := dbLogs + Tagged(i, batch[i].logs);
    }
    assert batch[..|batch|] == batch;
  }

  lemma {:induction false} TagsInRange(batch: seq<TxWithLogs>)
    ensures forall k :: 0 <= k < |FlatLogs(batch)| ==> FlatLogs(batch)[k].0 < |batch|
  {
    if batch != [] {
      TagsInRange(batch[..|batch| - 1]);
    }
  }

  lemma {:induction false} RowsOfChunk(flat: seq<(nat, Log)>, start: nat, end: nat, firstTxId: nat, firstLogId: nat)
    requires start <= end <= |flat|
    ensures RowsOf(flat[..end], firstTxId, firstLogId)
         == RowsOf(flat[..start], firstTxId, firstLogId) + RowsOf(flat[start..end], firstTxId, firstLogId + start)
  {
  }

  // ----- the whole block -----

  /** What the tables held before, and the ids that the sequences give out next. */
  datatype Tables = Tables(txs: seq<TxRow>, logs: seq<LogRow>, nextTxId: nat, nextLogId: nat)

  ghost function TablesOf(db: Database): Tables
    reads db
  {
    Tables(db.txs, db.logs, db.nextTxId, db.nextLogId)
  }

  ghost function Inserted(t: Tables, placed: seq<TxWithLogs>): Tables {
    Tables(t.txs + TxRows(placed, t.nextTxId), t.logs + LogRows(placed, t.nextTxId, t.nextLogId),
           t.nextTxId + |placed|, t.nextLogId + LogCount(placed))
  }

  ghost function Updated(t: Tables, placed: seq<TxWithLogs>): Tables {
    t.(txs := UpdatedTxs(t.txs, TxsOf(placed)), logs := UpdatedLogs(t.logs, LogsOf(placed)))
  }

  /** The tables after the placed transactions were inserted or updated. */
  ghost function Written(isUpdate: bool, t: Tables, placed: seq<TxWithLogs>): Tables {
    if isUpdate then Updated(t, placed) else Inserted(t, placed)
  }

  lemma {:induction false} UpdatedTwice(t: Tables, before: seq<TxWithLogs>, placed: seq<TxWithLogs>)
    ensures Updated(t, before + placed) == Updated(Updated(t, before), placed)
  {
    assert TxsOf(before + placed) == TxsOf(before) + TxsOf(placed);
    UpdatedTxsConcat(t.txs, TxsOf(before), TxsOf(placed));
    LogsOfConcat(before, placed);
    UpdatedLogsConcat(t.logs, LogsOf(before), LogsOf(placed));
  }

  lemma {:induction false} InsertedTwice(t: Tables, before: seq<TxWithLogs>, placed: seq<TxWithLogs>)
    ensures Inserted(t, before + placed) == Inserted(Inserted(t, before), placed)
  {
    var u := Inserted(t, before);
    TxRowsOfConcat(before, placed, t.nextTxId);
    LogRowsOfConcat(before, placed, t.nextTxId, t.nextLogId);
    SumsOfConcat(before, placed);
    Seqs.Assoc(t.txs, TxRows(before, t.nextTxId), TxRows(placed, u.nextTxId));
    Seqs.Assoc(t.logs, LogRows(before, t.nextTxId, t.nextLogId), LogRows(placed, u.nextTxId, u.nextLogId));
  }

  lemma {:induction false} WrittenTwice(isUpdate: bool, t: Tables, before: seq<TxWithLogs>, placed: seq<TxWithLogs>)
    ensures Written(isUpdate, t, before + placed) == Written(isUpdate, Written(isUpdate, t, before), placed)
  {
    if isUpdate {
      UpdatedTwice(t, before, placed);
    } else {
      InsertedTwice(t, before, placed);
    }
  }

  lemma {:induction false} WrittenNone(isUpdate: bool, t: Tables)
    ensures Written(isUpdate, t, []) == t
  {
    assert UpdatedTxs(t.txs, []) == t.txs && UpdatedLogs(t.logs, []) == t.logs;
  }

  method WriteBatch(db: Database, isUpdate: bool, placed: seq<TxWithLogs>, chunkSize: nat)
    returns (txsLen: nat, logsLen: nat)
    requires chunkSize >= 1
    modifies db
    ensures TablesOf(db) == Written(isUpdate, old(TablesOf(db)), placed)
    ensures db.blocks == old(db.blocks)
    ensures txsLen == |placed| && logsLen == LogCount(placed)
  {
    if isUpdate {
      txsLen, logsLen := db.UpdateTxsAndLogs(placed, chunkSize);
    } else {
      txsLen, logsLen := db.InsertTxsAndLogs(placed, chunkSize);
    }
  }

  lemma {:induction false} BatchSizes(done: seq<TxWithLogs>, next: seq<TxWithLogs>, placed: seq<TxWithLogs>)
    requires OnePass(next) == OnePass(done) + placed
    ensures |next| == |done| + |placed| && LogCount(next) == LogCount(done) + LogCount(placed)
  {
    LogCountOfOnePass(done);
    LogCountOfOnePass(next);
    SumsOfConcat(OnePass(done), placed);
  }

  /**
   `insert_or_update_l2block`. `outcomes` are the results of `filter_single_transaction` in block order,
   `built` tells whether `build_web3_block` and the statements succeed. Whatever the batch and chunk
   sizes, a success writes the rows of the one pass, with the full sums in the block's row; it happens
   exactly when no filter fails, the totals fit their counters, the block is built and, for an insert,
   its number is new to the primary key. A failed insert leaves no row.
   */
  method InsertOrUpdateL2Block(db: Database, number: nat, hash: Bytes, outcomes: seq<Result<Option<TxWithLogs>>>,
                               isUpdate: bool, batchSize: nat, chunkSize: nat, built: bool)
    returns (r: Result<(nat, nat)>)
    requires 1 <= batchSize < UINT32_LIMIT && chunkSize >= 1
    requires Countable(outcomes)
    modifies db
    ensures r.Ok? <==> AllOk(outcomes) && Fits(Survivors(outcomes)) && built && (isUpdate || number !in old(db.blocks))
    ensures r.Ok? ==> r.value == (|Survivors(outcomes)|, LogCount(Survivors(outcomes)))
    ensures r.Ok? ==> TablesOf(db) == Written(isUpdate, old(TablesOf(db)), OnePass(Survivors(outcomes)))
    ensures r.Ok? ==>
              var block := BlockRow(hash, GasLimit(Survivors(outcomes)), GasUsed(Survivors(outcomes)));
              db.blocks == if isUpdate && number !in old(db.blocks) then old(db.blocks)
                           else old(db.blocks)[number := block]
    ensures r.Err? && !isUpdate ==> db.txs == old(db.txs) && db.logs == old(db.logs) && db.blocks == old(db.blocks)
  {
    hide Written, Inserted, Updated;
    var savedTxs, savedLogs := db.txs, db.logs;
    var c := Cursors(0, 0, 0, 0);
    var txsLen, logsLen := 0, 0;
    ghost var done: seq<TxWithLogs> := [];
    var at := 0;
    ghost var before := TablesOf(db);
    WrittenNone(isUpdate, before);
    assert OnePass(done) == [] && Survivors(outcomes[..at]) == [] && Fits(done) && c == CursorsAfter(done);
    hide OnePass, LogCount, Survivors, Fits, CursorsAfter;
    while at < |outcomes|
      invariant 0 <= at <= |outcomes|
      invariant AllOk(outcomes[..at]) && done == Survivors(outcomes[..at])
      invariant Fits(done) && c == CursorsAfter(done)
      invariant txsLen == |done| && logsLen == LogCount(done)
      invariant TablesOf(db) == Written(isUpdate, before, OnePass(done))
      invariant db.blocks == old(db.blocks)
    {
      var end := if at + batchSize < |outcomes| then at + batchSize else |outcomes|;
      var batch := outcomes[at..end];
      var numbered := NumberBatch(batch, c, done);
      if numbered.Err? {
        BatchFails(outcomes, at, end, done);
        if !isUpdate {
          db.txs, db.logs := savedTxs, savedLogs;
        }
        return Err(numbered.reason);
      }
      SurvivorsOfConcat(outcomes[..at], batch);
      Seqs.Join(outcomes, 0, at, end);
      assert outcomes[..end] == outcomes[..at] + batch;
      ghost var next := done + Survivors(batch);
      var txsPart, logsPart := WriteBatch(db, isUpdate, numbered.value.0, chunkSize);
      WrittenTwice(isUpdate, before, OnePass(done), numbered.value.0);
      BatchSizes(done, next, numbered.value.0);
      c := numbered.value.1;
      txsLen, logsLen := txsLen + txsPart, logsLen + logsPart;
      done, at := next, end;
    }
    assert outcomes[..at] == outcomes;
    if !built || (!isUpdate && number in db.blocks) {
      if !isUpdate {
        db.txs, db.logs := savedTxs, savedLogs;
      }
      return Err("build_web3_block, or duplicate key");
    }
    if !isUpdate || number in db.blocks {
      db.blocks := db.blocks[number := BlockRow(hash, c.totalGasLimit, c.cumulativeGasUsed)];
    }
    return Ok((txsLen, logsLen));
  }

  lemma {:induction false} BatchFails(outcomes: seq<Result<Option<TxWithLogs>>>, at: nat, end: nat,
        done: seq<TxWithLogs>)
    requires at <= end <= |outcomes| && AllOk(outcomes[..at]) && done == Survivors(outcomes[..at])
    requires !(AllOk(outcomes[at..end]) && Fits(done + Survivors(outcomes[at..end])))
    ensures !(AllOk(outcomes) && Fits(Survivors(outcomes)))
  {
    if AllOk(outcomes) {
      var batch, rest := outcomes[at..end], outcomes[end..];
      Seqs.SplitThree(outcomes, at, end);
      SurvivorsOfConcat(outcomes[..at], batch);
      SurvivorsOfConcat(outcomes[..at] + batch, rest);
      SumsOfConcat(done + Survivors(batch), Survivors(rest));
    }
  }

  // ----- update after insert -----

  lemma {:induction false} NoOtherTx(rows: seq<TxRow>, txs: seq<TxWithLogs>, number: nat, firstTxId: nat)
    requires forall k :: 0 <= k < |rows| ==> rows[k].tx.blockNumber != number
    requires forall i :: 0 <= i < |txs| ==> FromFilter(txs[i], number)
    ensures var all := rows + TxRows(OnePass(txs), firstTxId);
            UpdatedTxs(all, TxsOf(OnePass(txs))) == all
  {
    var us, all := TxsOf(OnePass(txs)), rows + TxRows(OnePass(txs), firstTxId);
    forall k | 0 <= k < |all| ensures UpdatedTx(all[k], us) == all[k] {
      forall u | u in us && SameTxKey(all[k], u) ensures u.columns == all[k].tx.columns {
        var i :| 0 <= i < |us| && us[i] == u;
        OnePassAt(txs, i);
        assert FromFilter(txs[i], number);
        assert k >= |rows|;
        OnePassAt(txs, k - |rows|);
      }
      UpdatedTxSame(all[k], us);
    }
  }

  lemma {:induction false} NoOtherLog(rows: seq<LogRow>, txs: seq<TxWithLogs>, number: nat, firstTxId: nat,
        firstLogId: nat)
    requires forall k :: 0 <= k < |rows| ==> rows[k].log.blockNumber != number
    requires forall i :: 0 <= i < |txs| ==> FromFilter(txs[i], number)
    ensures var all := rows + LogRows(OnePass(txs), firstTxId, firstLogId);
            UpdatedLogs(all, LogsOf(OnePass(txs))) == all
  {
    var us, all := LogsOf(OnePass(txs)), rows + LogRows(OnePass(txs), firstTxId, firstLogId);
    LogsOfFlat(OnePass(txs));
    forall k | 0 <= k < |all| ensures UpdatedLog(all[k], us) == all[k] {
      forall u | u in us && SameLogKey(all[k], u) ensures u.columns == all[k].log.columns {
        var i :| 0 <= i < |us| && us[i] == u;
        OnePassLogs(txs, number, i);
        assert k >= |rows|;
        OnePassLogs(txs, number, k - |rows|);
      }
      UpdatedLogSame(all[k], us);
    }
  }

  /** The keys of the block's logs are distinct, so the order of the update chunks does not matter either. */
  lemma {:induction false} LogKeysDistinct(txs: seq<TxWithLogs>, number: nat)
    requires forall i :: 0 <= i < |txs| ==> FromFilter(txs[i], number)
    ensures DistinctLogKeys(LogsOf(OnePass(txs)))
  {
    LogsOfFlat(OnePass(txs));
    forall i, j | 0 <= i < j < |LogsOf(OnePass(txs))|
      ensures LogsOf(OnePass(txs))[i].logIndex != LogsOf(OnePass(txs))[j].logIndex
    {
      OnePassLogs(txs, number, i);
      OnePassLogs(txs, number, j);
    }
  }

  lemma {:induction false} TxKeysDistinct(txs: seq<TxWithLogs>)
    ensures DistinctTxKeys(TxsOf(OnePass(txs)))
  {
    forall i, j | 0 <= i < j < |txs| ensures TxsOf(OnePass(txs))[i].index != TxsOf(OnePass(txs))[j].index {
      OnePassAt(txs, i);
      OnePassAt(txs, j);
    }
  }

  /**
   Storing a new block and running the update path over it with the same receipts, with any batch and
   chunk sizes on both sides: every row is as the store left it.
   */
  method StoreThenUpdate(db: Database, number: nat, hash: Bytes, outcomes: seq<Result<Option<TxWithLogs>>>,
                         sizes: (nat, nat), updateSizes: (nat, nat))
    returns (stored: Result<(nat, nat)>, updated: Result<(nat, nat)>)
    requires 1 <= sizes.0 < UINT32_LIMIT && sizes.1 >= 1
    requires 1 <= updateSizes.0 < UINT32_LIMIT && updateSizes.1 >= 1
    requires number !in db.blocks
    requires forall k :: 0 <= k < |db.txs| ==> db.txs[k].tx.blockNumber != number
    requires forall k :: 0 <= k < |db.logs| ==> db.logs[k].log.blockNumber != number
    requires forall i :: 0 <= i < |outcomes| && outcomes[i].Ok? && outcomes[i].value.Some? ==>
               FromFilter(outcomes[i].value.value, number)
    modifies db
    ensures stored == updated || (stored.Err? && updated.Err?)
    ensures stored.Ok? ==>
              && AllOk(outcomes)
              && db.txs == old(db.txs) + TxRows(OnePass(Survivors(outcomes)), old(db.nextTxId))
              && db.logs == old(db.logs) + LogRows(OnePass(Survivors(outcomes)), old(db.nextTxId), old(db.nextLogId))
              && db.blocks == old(db.blocks)[number :=
                                BlockRow(hash, GasLimit(Survivors(outcomes)), GasUsed(Survivors(outcomes)))]
  {
    stored := InsertOrUpdateL2Block(db, number, hash, outcomes, false, sizes.0, sizes.1, true);
    updated := InsertOrUpdateL2Block(db, number, hash, outcomes, true, updateSizes.0, updateSizes.1, true);
    if stored.Ok? {
      var txs := Survivors(outcomes);
      SurvivorsFromFilter(outcomes, number);
      NoOtherTx(old(db.txs), txs, number, old(db.nextTxId));
      NoOtherLog(old(db.logs), txs, number, old(db.nextTxId), old(db.nextLogId));
    }
  }

  lemma {:induction false} SurvivorsFromFilter(outcomes: seq<Result<Option<TxWithLogs>>>, number: nat)
    requires AllOk(outcomes)
    requires forall i :: 0 <= i < |outcomes| && outcomes[i].value.Some? ==> FromFilter(outcomes[i].value.value, number)
    ensures forall i :: 0 <= i < |Survivors(outcomes)| ==> FromFilter(Survivors(outcomes)[i], number)
  {
    if outcomes != [] {
      SurvivorsFromFilter(outcomes[..|outcomes| - 1], number);
    }
  }
}
