/**
 What the rows of an indexed block hold, column by column: which outcome each of them comes from, and
 which values it has kept from there.
 */
module StoredRows {
  import opened Wrappers
  import opened Binary
  import opened Indexing
  import Seqs

  // ----- sums -----

  function Sum(ns: seq<nat>): nat {
    if ns == [] then 0 else ns[0] + Sum(ns[1..])
  }

  lemma {:induction false} SumSnoc(ns: seq<nat>, n: nat)
    ensures Sum(ns + [n]) == Sum(ns) + n
  {
    if ns == [] {
      assert ns + [n] == [n];
      Seqs.Single(n);
    } else {
      SumSnoc(ns[1..], n);
      Seqs.TailOfConcat(ns, [n]);
    }
  }

  /** How many logs each transaction has, and the gas that each has used and may use. */
  function LogCounts(txs: seq<TxWithLogs>): (ns: seq<nat>)
    ensures |ns| == |txs|
    ensures forall i :: 0 <= i < |txs| ==> ns[i] == |txs[i].logs|
  {
    seq(|txs|, i requires 0 <= i < |txs| => |txs[i].logs|)
  }

  function GasUsedBy(txs: seq<TxWithLogs>): (ns: seq<nat>)
    ensures |ns| == |txs|
    ensures forall i :: 0 <= i < |txs| ==> ns[i] == txs[i].tx.columns.gasUsed
  {
    seq(|txs|, i requires 0 <= i < |txs| => txs[i].tx.columns.gasUsed)
  }

  function GasLimitOf(txs: seq<TxWithLogs>): (ns: seq<nat>)
    ensures |ns| == |txs|
    ensures forall i :: 0 <= i < |txs| ==> ns[i] == txs[i].tx.columns.gasLimit
  {
    seq(|txs|, i requires 0 <= i < |txs| => txs[i].tx.columns.gasLimit)
  }

  lemma {:induction false} TotalsAreSums(txs: seq<TxWithLogs>)
    ensures LogCount(txs) == Sum(LogCounts(txs))
    ensures GasUsed(txs) == Sum(GasUsedBy(txs))
    ensures GasLimit(txs) == Sum(GasLimitOf(txs))
  {
    if txs != [] {
      var init, last := txs[..|txs| - 1], txs[|txs| - 1];
      TotalsAreSums(init);
      SumSnoc(LogCounts(init), |last.logs|);
      SumSnoc(GasUsedBy(init), last.tx.columns.gasUsed);
      SumSnoc(GasLimitOf(init), last.tx.columns.gasLimit);
      assert LogCounts(txs) == LogCounts(init) + [|last.logs|];
      assert GasUsedBy(txs) == GasUsedBy(init) + [last.tx.columns.gasUsed];
      assert GasLimitOf(txs) == GasLimitOf(init) + [last.tx.columns.gasLimit];
    }
  }

  // ----- which outcomes survive -----

  /** The outcomes before `i` that hold a transaction. */
  function KeptBefore(outcomes: seq<Result<Option<TxWithLogs>>>, i: nat): set<nat>
    requires AllOk(outcomes) && i <= |outcomes|
  {
    set k | 0 <= k < i && outcomes[k].value.Some?
  }

  lemma {:induction false} SurvivorsCount(outcomes: seq<Result<Option<TxWithLogs>>>)
    requires AllOk(outcomes)
    ensures |Survivors(outcomes)| == |KeptBefore(outcomes, |outcomes|)|
  {
    if outcomes == [] {
      assert KeptBefore(outcomes, |outcomes|) == {};
    } else {
      var n := |outcomes| - 1;
      var init := outcomes[..n];
      SurvivorsCount(init);
      assert n !in KeptBefore(init, n);
      assert KeptBefore(outcomes, |outcomes|) == KeptBefore(init, n) + if outcomes[n].value.Some? then {n} else {};
    }
  }

  /** Every transaction that the filter keeps survives, at the place that its number among them gives it. */
  lemma {:induction false} SurvivorAt(outcomes: seq<Result<Option<TxWithLogs>>>, i: nat)
    requires AllOk(outcomes) && i < |outcomes| && outcomes[i].value.Some?
    ensures |Survivors(outcomes)| == |set k | 0 <= k < |outcomes| && outcomes[k].value.Some?|
    ensures var place := |set k | 0 <= k < i && outcomes[k].value.Some?|;
            place < |Survivors(outcomes)| && Survivors(outcomes)[place] == outcomes[i].value.value
    decreases |outcomes|
  {
    SurvivorsCount(outcomes);
    assert KeptBefore(outcomes, |outcomes|) == set k | 0 <= k < |outcomes| && outcomes[k].value.Some?;
    var n := |outcomes| - 1;
    var init := outcomes[..n];
    assert (set k | 0 <= k < i && outcomes[k].value.Some?) == set k | 0 <= k < i && init[k].value.Some?;
    if i < n {
      SurvivorAt(init, i);
    } else {
      SurvivorsCount(init);
      assert KeptBefore(init, n) == set k | 0 <= k < i && init[k].value.Some?;
    }
  }

  // ----- the logs of one transaction -----

  lemma {:induction false} UserLogsCount(items: seq<GwLog>)
    ensures |UserLogs(items)| == |set k | 0 <= k < |items| && items[k].PolyjuiceUser?|
  {
    var kept := set k | 0 <= k < |items| && items[k].PolyjuiceUser?;
    if items == [] {
      assert kept == {};
    } else {
      var n := |items| - 1;
      var init := items[..n];
      UserLogsCount(init);
      assert kept == (set k | 0 <= k < |init| && init[k].PolyjuiceUser?) + if items[n].PolyjuiceUser? then {n} else {};
    }
  }

  /**
   Every user log of the receipt becomes a log of the transaction with its address, data and topics, at
   the place that its number among the user logs gives it, and with that number.
   */
  lemma {:induction false} CollectedLog(items: seq<GwLog>, txHash: Bytes, blockNumber: nat, blockHash: Bytes, i: nat)
    requires i < |items| && items[i].PolyjuiceUser?
    ensures var logs := NumberedLogs(UserLogs(items), txHash, blockNumber, blockHash);
            var place := |set k | 0 <= k < i && items[k].PolyjuiceUser?|;
            && |logs| == |set k | 0 <= k < |items| && items[k].PolyjuiceUser?|
            && place < |logs|
            && logs[place].blockNumber == blockNumber && logs[place].blockHash == blockHash
            && logs[place].logIndex == place
            && logs[place].columns.transactionHash == txHash
            && logs[place].columns.address == items[i].address
            && logs[place].columns.data == items[i].data
            && logs[place].columns.topics == items[i].topics
    decreases |items|
  {
    UserLogsCount(items);
    var n := |items| - 1;
    var init := items[..n];
    assert (set k | 0 <= k < i && items[k].PolyjuiceUser?) == set k | 0 <= k < i && init[k].PolyjuiceUser?;
    if i < n {
      CollectedLog(init, txHash, blockNumber, blockHash, i);
      var place := |set k | 0 <= k < i && items[k].PolyjuiceUser?|;
      assert UserLogs(items)[place] == UserLogs(init)[place];
    } else {
      UserLogsCount(init);
    }
  }

  // ----- inserted rows -----

  /** Transaction `i` of the block, as its row holds it: only the index and the cumulative gas are new. */
  lemma {:induction false} StoredTx(txs: seq<TxWithLogs>, firstTxId: nat, i: nat)
    requires i < |txs|
    ensures |TxRows(OnePass(txs), firstTxId)| == |txs|
    ensures var row, tx := TxRows(OnePass(txs), firstTxId)[i], txs[i].tx;
            && row.id == firstTxId + i
            && row.tx.blockNumber == tx.blockNumber && row.tx.blockHash == tx.blockHash
            && row.tx.index == i
            && row.tx.columns.hash == tx.columns.hash
            && row.tx.columns.gasLimit == tx.columns.gasLimit
            && row.tx.columns.gasUsed == tx.columns.gasUsed
            && row.tx.columns.cumulativeGasUsed == Sum(GasUsedBy(txs[..i + 1]))
            && row.tx.columns.others == tx.columns.others
  {
    OnePassAt(txs, i);
    TotalsAreSums(txs[..i + 1]);
  }

  /** Where log `j` of transaction `i` is among all logs of the block. */
  function PlaceOf(txs: seq<TxWithLogs>, i: nat, j: nat): nat
    requires i <= |txs|
  {
    Sum(LogCounts(txs[..i])) + j
  }

  lemma {:induction false} FlatLogAt(txs: seq<TxWithLogs>, i: nat, j: nat)
    requires i < |txs| && j < |txs[i].logs|
    ensures LogCount(txs[..i]) + j < |FlatLogs(txs)|
    ensures FlatLogs(txs)[LogCount(txs[..i]) + j] == (i, txs[i].logs[j])
    decreases |txs|
  {
    var init := txs[..|txs| - 1];
    FlatLogsSize(init);
    if i < |init| {
      FlatLogAt(init, i, j);
      assert init[..i] == txs[..i];
    }
  }

  lemma {:induction false} PlacedLog(txs: seq<TxWithLogs>, i: nat, j: nat)
    requires i < |txs| && j < |txs[i].logs|
    ensures |FlatLogs(OnePass(txs))| == Sum(LogCounts(txs))
    ensures PlaceOf(txs, i, j) < |FlatLogs(OnePass(txs))|
    ensures |OnePass(txs)[i].logs| == |txs[i].logs|
    ensures FlatLogs(OnePass(txs))[PlaceOf(txs, i, j)] == (i, OnePass(txs)[i].logs[j])
  {
    FlatLogsSize(OnePass(txs));
    LogCountOfOnePass(txs);
    TotalsAreSums(txs);
    OnePassAt(txs, i);
    FlatLogAt(OnePass(txs), i, j);
    OnePassPrefix(txs, i);
    LogCountOfOnePass(txs[..i]);
    TotalsAreSums(txs[..i]);
  }

  /** Log `j` of transaction `i`, as its row holds it: only the two indices are new. */
  lemma {:induction false} StoredLog(txs: seq<TxWithLogs>, firstTxId: nat, firstLogId: nat, i: nat, j: nat)
    requires i < |txs| && j < |txs[i].logs| && txs[i].logs[j].logIndex == j
    ensures var rows, k := LogRows(OnePass(txs), firstTxId, firstLogId), Sum(LogCounts(txs[..i])) + j;
            && |rows| == Sum(LogCounts(txs))
            && k < |rows|
            && var row, log := rows[k], txs[i].logs[j];
               && row.id == firstLogId + k
               && row.transactionId == firstTxId + i
               && row.log.blockNumber == log.blockNumber && row.log.blockHash == log.blockHash
               && row.log.transactionIndex == i
               && row.log.logIndex == k
               && row.log.columns.transactionHash == log.columns.transactionHash
               && row.log.columns.address == log.columns.address
               && row.log.columns.data == log.columns.data
               && row.log.columns.topics == log.columns.topics
  {
    PlacedLog(txs, i, j);
    OnePassAt(txs, i);
    TotalsAreSums(txs[..i]);
  }

  // ----- updated rows -----

  /** The row of transaction `i`, wherever it is in the table, gets the columns of the receipt. */
  lemma {:induction false} UpdatedTxRow(rows: seq<TxRow>, txs: seq<TxWithLogs>, number: nat, r: nat, i: nat)
    requires r < |rows| && i < |txs| && forall k :: 0 <= k < |txs| ==> FromFilter(txs[k], number)
    requires rows[r].tx.blockNumber == number && rows[r].tx.index == i
    ensures var after, tx := UpdatedTxs(rows, TxsOf(OnePass(txs)))[r], txs[i].tx;
            && after.id == rows[r].id
            && after.tx.blockNumber == number && after.tx.blockHash == rows[r].tx.blockHash && after.tx.index == i
            && after.tx.columns.hash == tx.columns.hash
            && after.tx.columns.gasLimit == tx.columns.gasLimit
            && after.tx.columns.gasUsed == tx.columns.gasUsed
            && after.tx.columns.cumulativeGasUsed == Sum(GasUsedBy(txs[..i + 1]))
            && after.tx.columns.others == tx.columns.others
  {
    TxKeysDistinct(txs);
    UpdatedTxIs(rows[r], TxsOf(OnePass(txs)));
    OnePassAt(txs, i);
    TotalsAreSums(txs[..i + 1]);
    assert FromFilter(txs[i], number);
    assert TxsOf(OnePass(txs))[i] in TxsOf(OnePass(txs));
  }

  /** So does the row of log `j` of transaction `i`. */
  lemma {:induction false} UpdatedLogRow(rows: seq<LogRow>, txs: seq<TxWithLogs>, number: nat, r: nat, i: nat, j: nat)
    requires r < |rows| && i < |txs| && j < |txs[i].logs| && forall k :: 0 <= k < |txs| ==> FromFilter(txs[k], number)
    requires rows[r].log.blockNumber == number && rows[r].log.logIndex == Sum(LogCounts(txs[..i])) + j
    ensures var after, log := UpdatedLogs(rows, LogsOf(OnePass(txs)))[r], txs[i].logs[j];
            && after.id == rows[r].id && after.transactionId == rows[r].transactionId
            && after.log.blockNumber == number && after.log.blockHash == rows[r].log.blockHash
            && after.log.transactionIndex == rows[r].log.transactionIndex
            && after.log.logIndex == rows[r].log.logIndex
            && after.log.columns.transactionHash == log.columns.transactionHash
            && after.log.columns.address == log.columns.address
            && after.log.columns.data == log.columns.data
            && after.log.columns.topics == log.columns.topics
  {
    LogKeysDistinct(txs, number);
    UpdatedLogIs(rows[r], LogsOf(OnePass(txs)));
    LogsOfFlat(OnePass(txs));
    PlacedLog(txs, i, j);
    OnePassLogs(txs, number, PlaceOf(txs, i, j));
    OnePassAt(txs, i);
    assert LogsOf(OnePass(txs))[PlaceOf(txs, i, j)] in LogsOf(OnePass(txs));
  }

  /** Rows of other blocks, and rows past the last transaction or log of this one, stay as they are. */
  lemma {:induction false} OtherRowsStay(txRows: seq<TxRow>, logRows: seq<LogRow>, txs: seq<TxWithLogs>, number: nat,
                                         r: nat)
    requires forall k :: 0 <= k < |txs| ==> FromFilter(txs[k], number)
    ensures r < |txRows| && (txRows[r].tx.blockNumber != number || txRows[r].tx.index >= |txs|) ==>
              UpdatedTxs(txRows, TxsOf(OnePass(txs)))[r] == txRows[r]
    ensures r < |logRows| &&
              (logRows[r].log.blockNumber != number || logRows[r].log.logIndex >= Sum(LogCounts(txs))) ==>
              UpdatedLogs(logRows, LogsOf(OnePass(txs)))[r] == logRows[r]
  {
    if r < |txRows| {
      OtherTxRow(txRows[r], txs, number);
    }
    if r < |logRows| {
      OtherLogRow(logRows[r], txs, number);
    }
  }

  lemma {:induction false} OtherTxRow(row: TxRow, txs: seq<TxWithLogs>, number: nat)
    requires forall k :: 0 <= k < |txs| ==> FromFilter(txs[k], number)
    ensures row.tx.blockNumber != number || row.tx.index >= |txs| ==> UpdatedTx(row, TxsOf(OnePass(txs))) == row
  {
    var us := TxsOf(OnePass(txs));
    if row.tx.blockNumber != number || row.tx.index >= |txs| {
      forall u | u in us ensures !SameTxKey(row, u) {
        var i :| 0 <= i < |us| && us[i] == u;
        OnePassAt(txs, i);
        assert FromFilter(txs[i], number);
      }
      TxKeysDistinct(txs);
      UpdatedTxIs(row, us);
    }
  }

  lemma {:induction false} OtherLogRow(row: LogRow, txs: seq<TxWithLogs>, number: nat)
    requires forall k :: 0 <= k < |txs| ==> FromFilter(txs[k], number)
    ensures row.log.blockNumber != number || row.log.logIndex >= Sum(LogCounts(txs)) ==>
              UpdatedLog(row, LogsOf(OnePass(txs))) == row
  {
    var us := LogsOf(OnePass(txs));
    LogsOfFlat(OnePass(txs));
    TotalsAreSums(txs);
    if row.log.blockNumber != number || row.log.logIndex >= Sum(LogCounts(txs)) {
      forall u | u in us ensures !SameLogKey(row, u) {
        var k :| 0 <= k < |us| && us[k] == u;
        OnePassLogs(txs, number, k);
      }
      LogKeysDistinct(txs, number);
      UpdatedLogIs(row, us);
    }
  }
}
