/** The block emitter (`block-emitter.ts`): new heads and their logs, pushed to subscribers poll by poll. */
module Emitter {
  import opened Wrappers
  import opened Binary
  import opened Filters
  import Seqs

  /** What one poll sees of the database: blocks from 0 up, and the log rows in id order. */
  datatype Snapshot = Snapshot(blocks: seq<BlockRow>, rows: seq<Row>)

  ghost predicate ValidSnapshot(s: Snapshot) {
    && (forall i :: 0 <= i < |s.blocks| ==> s.blocks[i].number == i)
    && Increasing(s.rows) && BlocksInOrder(s.rows)
    && forall row :: row in s.rows ==> row.blockNumber < |s.blocks|
  }

  /** `getTipBlockNumber`. */
  function TipOf(s: Snapshot): Option<nat> {
    if s.blocks == [] then None else Some(|s.blocks| - 1)
  }

  /** `getBlocksByNumbers`: without `min`, with `max`, in number order. */
  function BlocksByNumbers(blocks: seq<BlockRow>, min: int, max: int): seq<BlockRow> {
    if min >= max || blocks == [] then []
    else
      var last := blocks[|blocks| - 1];
      BlocksByNumbers(blocks[..|blocks| - 1], min, max) + if min < last.number <= max then [last] else []
  }

  function Numbers(blocks: seq<BlockRow>): (n: seq<int>)
    ensures |n| == |blocks|
  {
    seq(|blocks|, i requires 0 <= i < |blocks| => blocks[i].number)
  }

  /** The integers above `low` and up to `high`. */
  function Range(low: int, high: int): (r: seq<int>)
    ensures |r| == if low < high then high - low else 0
  {
    if low < high then seq(high - low, i => low + 1 + i) else []
  }

  lemma {:induction false} EmptyRange(a: int)
    ensures Range(a, a) == [] && Numbers([]) == []
  {
  }

  lemma {:induction false} RangeJoin(a: int, b: int, c: int)
    requires a <= b <= c
    ensures Range(a, b) + Range(b, c) == Range(a, c)
  {
  }

  lemma {:induction false} BlocksAbove(blocks: seq<BlockRow>, low: nat, max: int)
    requires forall i :: 0 <= i < |blocks| ==> blocks[i].number == i
    requires low <= max && |blocks| <= max + 1
    ensures BlocksByNumbers(blocks, low - 1, max) == if low < |blocks| then blocks[low..] else []
  {
    if blocks != [] {
      BlocksAbove(blocks[..|blocks| - 1], low, max);
      if low < |blocks| {
        Seqs.DropOfSnoc(blocks, low);
      }
    }
  }

  lemma {:induction false} BlocksByNumbersIsSlice(blocks: seq<BlockRow>, low: nat, max: int)
    requires forall i :: 0 <= i < |blocks| ==> blocks[i].number == i
    requires low <= max < |blocks|
    ensures BlocksByNumbers(blocks, low - 1, max) == blocks[low..max + 1]
    decreases |blocks|
  {
    if |blocks| == max + 1 {
      BlocksAbove(blocks, low, max);
    } else {
      BlocksByNumbersIsSlice(blocks[..|blocks| - 1], low, max);
      Seqs.SliceOfTake(blocks, |blocks| - 1, low, max + 1);
    }
  }

  lemma {:induction false} NumbersOfSlice(blocks: seq<BlockRow>, min: int, max: int)
    requires forall i :: 0 <= i < |blocks| ==> blocks[i].number == i
    requires -1 <= min < max < |blocks|
    ensures BlocksByNumbers(blocks, min, max) != []
    ensures Numbers(BlocksByNumbers(blocks, min, max)) == Range(min, max)
  {
    BlocksByNumbersIsSlice(blocks, min + 1, max);
  }

  /** The filter that `poll` queries logs with: a block range and nothing else. */
  function AllFrom(block: nat): LogFilter {
    LogFilter(block, [], [])
  }

  /** The log rows of the blocks above `low` and up to `high`. */
  function RowsIn(rows: seq<Row>, low: int, high: int): seq<Row> {
    if rows == [] then []
    else
      var last := rows[|rows| - 1];
      RowsIn(rows[..|rows| - 1], low, high) + if low < last.blockNumber <= high then [last] else []
  }

  lemma {:induction false} SelectIsRowsIn(rows: seq<Row>, low: int, high: nat)
    requires low >= -1
    ensures Select(rows, AllFrom(low + 1), -1, high) == RowsIn(rows, low, high)
  {
    if rows != [] {
      SelectIsRowsIn(rows[..|rows| - 1], low, high);
    }
  }

  /** Which of the awaits of a poll fails; the query for logs fails by its own limit, too. */
  datatype PollFault = NoFault | TipFails | BlocksFail | LogsFail

  /** Apart from the tip, nothing is read when there is no new block. */
  predicate PollFails(tip: int, s: Snapshot, fault: PollFault, maxQueryNumber: nat) {
    || fault == TipFails
    || (tip + 1 < |s.blocks| && (!fault.NoFault? || |RowsIn(s.rows, tip, |s.blocks| - 1)| > maxQueryNumber))
  }

  class BlockEmitter {
    var isRunning: bool
    var currentTip: int
    /** Everything notified so far. */
    var newHeads: seq<BlockRow>
    var newLogs: seq<Row>

    constructor ()
      ensures !isRunning && currentTip == -1 && newHeads == [] && newLogs == []
    {
      isRunning, currentTip, newHeads, newLogs := false, -1, [], [];
    }

    method Start(s: Snapshot)
      modifies this
      ensures isRunning && newHeads == old(newHeads) && newLogs == old(newLogs)
      ensures currentTip == if s.blocks == [] then old(currentTip) else |s.blocks| - 1
    {
      isRunning := true;
      var tip := TipOf(s);
      if tip.Some? {
        currentTip := tip.value;
      }
    }

    method Stop()
      modifies this`isRunning
      ensures !isRunning
    {
      isRunning := false;
    }

    /** One poll on one snapshot. */
    method Poll(s: Snapshot, maxQueryNumber: nat, fault: PollFault) returns (r: Result<()>)
      requires ValidSnapshot(s) && currentTip >= -1
      modifies this
      ensures isRunning == old(isRunning) && currentTip >= old(currentTip)
      ensures r.Ok? ==> currentTip == if old(currentTip) + 1 < |s.blocks| then |s.blocks| - 1 else old(currentTip)
      ensures r.Ok? ==> newHeads == old(newHeads) + BlocksByNumbers(s.blocks, old(currentTip), currentTip)
      ensures r.Ok? ==> newLogs == old(newLogs) + RowsIn(s.rows, old(currentTip), currentTip)
      ensures r.Err? ==> currentTip == old(currentTip) && newLogs == old(newLogs)
      ensures r.Err? ==>
                newHeads == if fault == TipFails || fault == BlocksFail then old(newHeads)
                            else old(newHeads) + BlocksByNumbers(s.blocks, old(currentTip), |s.blocks| - 1)
      ensures r.Err? <==> PollFails(old(currentTip), s, fault, maxQueryNumber)
    {
      if fault == TipFails {
        return Err("database error");
      }
      var tip := TipOf(s);
      if tip.None? || currentTip >= tip.value {
        NothingAbove(s.rows, currentTip);
        return Ok(());
      }
      hide RowsIn, BlocksByNumbers, Select, AllFrom;
      var min, max := currentTip, tip.value;
      if fault == BlocksFail {
        return Err("database error");
      }
      newHeads := newHeads + BlocksByNumbers(s.blocks, min, max);
      if fault == LogsFail {
        return Err("database error");
      }
      SelectIsRowsIn(s.rows, min, max);
      var logs := GetLogsByFilter(s.rows, AllFrom(min + 1), -1, max, maxQueryNumber, false);
      if logs.Err? {
        return Err(logs.reason);
      }
      newLogs := newLogs + logs.value;
      currentTip := max;
      return Ok(());
    }
  }

  lemma {:induction false} NothingAbove(rows: seq<Row>, tip: int)
    ensures RowsIn(rows, tip, tip) == []
  {
    if rows != [] {
      NothingAbove(rows[..|rows| - 1], tip);
    }
  }

  // ----- every run of polls -----

  ghost predicate ValidSnapshots(snapshots: seq<Snapshot>) {
    forall i :: 0 <= i < |snapshots| ==> ValidSnapshot(snapshots[i])
  }

  lemma {:induction false} HeadsExtend(s: Snapshot, start: int, before: int, after: int, heads: seq<BlockRow>)
    requires ValidSnapshot(s) && -1 <= start <= before <= after
    requires after == (if before + 1 < |s.blocks| then |s.blocks| - 1 else before)
    requires Numbers(heads) == Range(start, before)
    ensures Numbers(heads + BlocksByNumbers(s.blocks, before, after)) == Range(start, after)
  {
    var more := BlocksByNumbers(s.blocks, before, after);
    if before < after {
      NumbersOfSlice(s.blocks, before, after);
    }
    assert Numbers(heads + more) == Numbers(heads) + Numbers(more);
    RangeJoin(start, before, after);
  }

  /** The log rows only grow, and new ones belong to blocks above the old tip. */
  ghost predicate Extends(s: Snapshot, t: Snapshot) {
    && |s.blocks| <= |t.blocks|
    && |s.rows| <= |t.rows| && t.rows[..|s.rows|] == s.rows
    && forall i :: |s.rows| <= i < |t.rows| ==> t.rows[i].blockNumber >= |s.blocks|
  }

  ghost predicate AppendOnly(snapshots: seq<Snapshot>) {
    forall i :: 0 <= i < |snapshots| - 1 ==> Extends(snapshots[i], snapshots[i + 1])
  }

  lemma {:induction false} RowsInOfConcat(a: seq<Row>, b: seq<Row>, low: int, high: int)
    ensures RowsIn(a + b, low, high) == RowsIn(a, low, high) + RowsIn(b, low, high)
    decreases |b|
  {
    if b == [] {
      assert a + b == a;
    } else {
      RowsInOfConcat(a, b[..|b| - 1], low, high);
      Seqs.InitOfConcat(a, b);
    }
  }

  lemma {:induction false} RowsAbove(rows: seq<Row>, low: int, high: int)
    requires forall row :: row in rows ==> row.blockNumber > high
    ensures RowsIn(rows, low, high) == []
  {
    if rows != [] {
      assert forall row :: row in rows[..|rows| - 1] ==> row in rows;
      RowsAbove(rows[..|rows| - 1], low, high);
      assert rows[|rows| - 1] in rows;
    }
  }

  lemma {:induction false} RowsInSplit(rows: seq<Row>, a: int, b: int, c: int)
    requires BlocksInOrder(rows) && a <= b <= c
    ensures RowsIn(rows, a, b) + RowsIn(rows, b, c) == RowsIn(rows, a, c)
  {
    if rows != [] {
      var init, last := rows[..|rows| - 1], rows[|rows| - 1];
      assert BlocksInOrder(init);
      RowsInSplit(init, a, b, c);
      if last.blockNumber <= b {
        forall row | row in init ensures row.blockNumber <= b {
          var i :| 0 <= i < |init| && init[i] == row;
          assert rows[i] == row;
        }
        RowsBelow(init, b, c);
      }
    }
  }

  lemma {:induction false} RowsBelow(rows: seq<Row>, low: int, high: int)
    requires forall row :: row in rows ==> row.blockNumber <= low
    ensures RowsIn(rows, low, high) == []
  {
    if rows != [] {
      assert forall row :: row in rows[..|rows| - 1] ==> row in rows;
      RowsBelow(rows[..|rows| - 1], low, high);
      assert rows[|rows| - 1] in rows;
    }
  }

  lemma {:induction false} RowsInFit(rows: seq<Row>, low: int, high: int)
    ensures |RowsIn(rows, low, high)| <= |rows|
  {
    if rows != [] {
      RowsInFit(rows[..|rows| - 1], low, high);
    }
  }

  /** Old log rows are seen unchanged by later polls. */
  lemma {:induction false} RowsStay(s: Snapshot, t: Snapshot, low: int, high: int)
    requires Extends(s, t) && high < |s.blocks|
    ensures RowsIn(t.rows, low, high) == RowsIn(s.rows, low, high)
  {
    var n := |s.rows|;
    Seqs.Split(t.rows, n);
    RowsInOfConcat(t.rows[..n], t.rows[n..], low, high);
    forall row | row in t.rows[n..] ensures row.blockNumber > high {
      var i :| 0 <= i < |t.rows[n..]| && t.rows[n..][i] == row;
      assert t.rows[n + i] == row;
    }
    RowsAbove(t.rows[n..], low, high);
  }

  /** The logs emitted so far, as far as the last snapshot shows. */
  ghost predicate Emitted(s: Snapshot, start: int, tip: int, logs: seq<Row>) {
    logs == RowsIn(s.rows, start, tip) && tip < |s.blocks|
  }

  function Before(i: nat): nat {
    if i == 0 then 0 else i - 1
  }

  lemma {:induction false} LogsNext(snapshots: seq<Snapshot>, i: nat, start: int, before: int, after: int,
        logs: seq<Row>)
    requires ValidSnapshots(snapshots) && AppendOnly(snapshots) && i < |snapshots|
    requires start <= before <= after
    requires after == if before + 1 < |snapshots[i].blocks| then |snapshots[i].blocks| - 1 else before
    requires Emitted(snapshots[Before(i)], start, before, logs)
    ensures Emitted(snapshots[i], start, after, logs + RowsIn(snapshots[i].rows, before, after))
  {
    if i > 0 {
      assert Extends(snapshots[i - 1], snapshots[i - 1 + 1]);
      RowsStay(snapshots[i - 1], snapshots[i], start, before);
    }
    LogsExtend(snapshots[i], start, before, after, logs);
  }

  lemma {:induction false} LogsExtend(s: Snapshot, start: int, before: int, after: int, logs: seq<Row>)
    requires ValidSnapshot(s) && start <= before <= after
    requires logs == RowsIn(s.rows, start, before)
    ensures logs + RowsIn(s.rows, before, after) == RowsIn(s.rows, start, after)
  {
    RowsInSplit(s.rows, start, before, after);
  }

  /**
   Polls without failures, on any snapshots, even ones whose tip has rolled back: `currentTip` never
   decreases, and the heads emitted since the start are numbered start + 1 up to `currentTip`, without
   gap or repeat. While the database only grows, the logs emitted are exactly those of the same blocks.
   */
  method PollAll(emitter: BlockEmitter, snapshots: seq<Snapshot>, maxQueryNumber: nat) returns (ok: bool)
    requires ValidSnapshots(snapshots) && |snapshots| > 0
    requires emitter.currentTip == |snapshots[0].blocks| - 1
    requires emitter.newHeads == [] && emitter.newLogs == []
    modifies emitter
    ensures emitter.currentTip >= old(emitter.currentTip)
    ensures (forall i :: 0 <= i < |snapshots| ==> |snapshots[i].rows| <= maxQueryNumber) ==> ok
    ensures ok ==> Numbers(emitter.newHeads) == Range(old(emitter.currentTip), emitter.currentTip)
    ensures ok && AppendOnly(snapshots) ==>
              emitter.newLogs == RowsIn(snapshots[|snapshots| - 1].rows, old(emitter.currentTip), emitter.currentTip)
  {
    hide Numbers, Range, BlocksByNumbers, RowsIn;
    ghost var start := emitter.currentTip;
    EmptyRange(start);
    NothingAbove(snapshots[0].rows, start);
    var i := 0;
    while i < |snapshots|
      invariant 0 <= i <= |snapshots| && emitter.currentTip >= start
      invariant Numbers(emitter.newHeads) == Range(start, emitter.currentTip)
      invariant AppendOnly(snapshots) ==>
                  Emitted(snapshots[Before(i)], start, emitter.currentTip, emitter.newLogs)
    {
      ghost var before, heads, logs := emitter.currentTip, emitter.newHeads, emitter.newLogs;
      var r := emitter.Poll(snapshots[i], maxQueryNumber, NoFault);
      if r.Err? {
        RowsInFit(snapshots[i].rows, before, |snapshots[i].blocks| - 1);
        return false;
      }
      HeadsExtend(snapshots[i], start, before, emitter.currentTip, heads);
      if AppendOnly(snapshots) {
        LogsNext(snapshots, i, start, before, emitter.currentTip, logs);
      }
      i := i + 1;
    }
    return true;
  }

  // ----- every run of polls, failures and restarts -----

  /** A poll and, if it fails, what the restart by the liveness check sees. */
  datatype Round = Round(poll: Snapshot, fault: PollFault, restart: Snapshot)

  predicate Fails(tip: int, r: Round, maxQueryNumber: nat) {
    PollFails(tip, r.poll, r.fault, maxQueryNumber)
  }

  /** The last head that the poll has notified, or an earlier one. */
  function LastHead(tip: int, r: Round): int {
    if tip + 1 >= |r.poll.blocks| || r.fault in {TipFails, BlocksFail} then tip else |r.poll.blocks| - 1
  }

  /** `currentTip` after the round: a restart jumps to the tip of the database. */
  function NextTip(tip: int, r: Round, maxQueryNumber: nat): int {
    if Fails(tip, r, maxQueryNumber) then (if r.restart.blocks == [] then tip else |r.restart.blocks| - 1)
    else LastHead(tip, r)
  }

  /** The blocks that a restart jumps over and whose heads were not notified before the failure. */
  function HeadsLostBy(tip: int, r: Round, maxQueryNumber: nat): seq<int> {
    Range(LastHead(tip, r), NextTip(tip, r, maxQueryNumber))
  }

  /** The blocks that a restart jumps over; a poll that fails has notified no logs. */
  function LogsLostBy(tip: int, r: Round, maxQueryNumber: nat): seq<int> {
    if Fails(tip, r, maxQueryNumber) then Range(tip, NextTip(tip, r, maxQueryNumber)) else []
  }

  function LostHeads(tip: int, rounds: seq<Round>, maxQueryNumber: nat): seq<int>
    decreases |rounds|
  {
    if rounds == [] then []
    else
      HeadsLostBy(tip, rounds[0], maxQueryNumber)
      + LostHeads(NextTip(tip, rounds[0], maxQueryNumber), rounds[1..], maxQueryNumber)
  }

  function LostLogs(tip: int, rounds: seq<Round>, maxQueryNumber: nat): seq<int>
    decreases |rounds|
  {
    if rounds == [] then []
    else
      LogsLostBy(tip, rounds[0], maxQueryNumber)
      + LostLogs(NextTip(tip, rounds[0], maxQueryNumber), rounds[1..], maxQueryNumber)
  }

  ghost predicate Growing(rounds: seq<Round>) {
    && (forall i :: 0 <= i < |rounds| ==>
          ValidSnapshot(rounds[i].poll) && ValidSnapshot(rounds[i].restart)
          && Extends(rounds[i].poll, rounds[i].restart))
    && forall i :: 0 <= i < |rounds| - 1 ==> Extends(rounds[i].restart, rounds[i + 1].poll)
  }

  /** Heads in increasing order, and none missing above `start` and up to `tip` but the lost ones. */
  ghost predicate AllButLost(heads: seq<int>, start: int, tip: int, lost: seq<int>) {
    && (forall i, j :: 0 <= i < j < |heads| ==> heads[i] < heads[j])
    && (forall n :: n in heads <==> start < n <= tip && n !in lost)
    && forall n :: n in lost ==> start < n <= tip
  }

  lemma {:induction false} HeadsRound(heads: seq<int>, start: int, tip: int, last: int, next: int, lost: seq<int>)
    requires start <= tip <= last <= next && AllButLost(heads, start, tip, lost)
    ensures AllButLost(heads + Range(tip, last), start, next, lost + Range(last, next))
  {
    forall n ensures n in Range(tip, last) <==> tip < n <= last { InRange(n, tip, last); }
    forall n ensures n in Range(last, next) <==> last < n <= next { InRange(n, last, next); }
    forall i | 0 <= i < |heads| ensures heads[i] <= tip {
      assert heads[i] in heads;
    }
  }

  lemma {:induction false} InRange(n: int, low: int, high: int)
    ensures n in Range(low, high) <==> low < n <= high
  {
    if low < n <= high {
      assert Range(low, high)[n - low - 1] == n;
    }
  }

  /** The log rows of other blocks than the lost ones. */
  function Without(rows: seq<Row>, lost: seq<int>): seq<Row> {
    if rows == [] then []
    else
      var init := Without(rows[..|rows| - 1], lost);
      if rows[|rows| - 1].blockNumber in lost then init else init + [rows[|rows| - 1]]
  }

  lemma {:induction false} WithoutConcat(a: seq<Row>, b: seq<Row>, lost: seq<int>)
    ensures Without(a + b, lost) == Without(a, lost) + Without(b, lost)
    decreases |b|
  {
    if b == [] {
      assert a + b == a;
    } else {
      WithoutConcat(a, b[..|b| - 1], lost);
      Seqs.InitOfConcat(a, b);
    }
  }

  lemma {:induction false} RowsInBounds(rows: seq<Row>, low: int, high: int)
    ensures forall row :: row in RowsIn(rows, low, high) ==> low < row.blockNumber <= high
  {
    if rows != [] {
      RowsInBounds(rows[..|rows| - 1], low, high);
    }
  }

  lemma {:induction false} WithoutMore(rows: seq<Row>, lost: seq<int>, more: seq<int>)
    requires forall row :: row in rows ==> row.blockNumber !in more
    ensures Without(rows, lost + more) == Without(rows, lost)
  {
    if rows != [] {
      assert forall row :: row in rows[..|rows| - 1] ==> row in rows;
      WithoutMore(rows[..|rows| - 1], lost, more);
      assert rows[|rows| - 1] in rows;
    }
  }

  lemma {:induction false} WithoutNone(rows: seq<Row>, lost: seq<int>)
    requires forall row :: row in rows ==> row.blockNumber !in lost
    ensures Without(rows, lost) == rows
  {
    if rows != [] {
      assert forall row :: row in rows[..|rows| - 1] ==> row in rows;
      WithoutNone(rows[..|rows| - 1], lost);
      assert rows[|rows| - 1] in rows;
      Seqs.InitLast(rows);
    }
  }

  lemma {:induction false} WithoutAll(rows: seq<Row>, lost: seq<int>)
    requires forall row :: row in rows ==> row.blockNumber in lost
    ensures Without(rows, lost) == []
  {
    if rows != [] {
      assert forall row :: row in rows[..|rows| - 1] ==> row in rows;
      WithoutAll(rows[..|rows| - 1], lost);
      assert rows[|rows| - 1] in rows;
    }
  }

  /** The logs so far, as a snapshot shows them. */
  ghost predicate LogsButLost(s: Snapshot, start: int, tip: int, lost: seq<int>, logs: seq<Row>) {
    && logs == Without(RowsIn(s.rows, start, tip), lost)
    && tip < |s.blocks|
    && forall n :: n in lost ==> n <= tip
  }

  lemma {:induction false} LogsStay(s: Snapshot, t: Snapshot, start: int, tip: int, lost: seq<int>, logs: seq<Row>)
    requires LogsButLost(s, start, tip, lost, logs) && Extends(s, t)
    ensures LogsButLost(t, start, tip, lost, logs)
  {
    RowsStay(s, t, start, tip);
  }

  lemma {:induction false} LogsPolled(s: Snapshot, start: int, tip: int, next: int, lost: seq<int>, logs: seq<Row>)
    requires ValidSnapshot(s) && start <= tip <= next < |s.blocks|
    requires LogsButLost(s, start, tip, lost, logs)
    ensures LogsButLost(s, start, next, lost, logs + RowsIn(s.rows, tip, next))
  {
    RowsInSplit(s.rows, start, tip, next);
    WithoutConcat(RowsIn(s.rows, start, tip), RowsIn(s.rows, tip, next), lost);
    RowsInBounds(s.rows, tip, next);
    WithoutNone(RowsIn(s.rows, tip, next), lost);
  }

  lemma {:induction false} LogsLost(s: Snapshot, start: int, tip: int, next: int, lost: seq<int>, logs: seq<Row>)
    requires ValidSnapshot(s) && start <= tip <= next < |s.blocks|
    requires LogsButLost(s, start, tip, lost, logs)
    ensures LogsButLost(s, start, next, lost + Range(tip, next), logs)
  {
    hide RowsIn, Without, Range;
    var more := lost + Range(tip, next);
    forall n ensures n in Range(tip, next) <==> tip < n <= next { InRange(n, tip, next); }
    RowsInSplit(s.rows, start, tip, next);
    WithoutConcat(RowsIn(s.rows, start, tip), RowsIn(s.rows, tip, next), more);
    RowsInBounds(s.rows, start, tip);
    RowsInBounds(s.rows, tip, next);
    WithoutMore(RowsIn(s.rows, start, tip), lost, Range(tip, next));
    WithoutAll(RowsIn(s.rows, tip, next), more);
  }

  lemma {:induction false} HeadsOfPoll(s: Snapshot, heads: seq<BlockRow>, tip: int, last: int)
    requires ValidSnapshot(s) && -1 <= tip <= last < |s.blocks|
    ensures Numbers(heads + BlocksByNumbers(s.blocks, tip, last)) == Numbers(heads) + Range(tip, last)
  {
    if tip < last {
      NumbersOfSlice(s.blocks, tip, last);
    }
    assert Numbers(heads + BlocksByNumbers(s.blocks, tip, last))
        == Numbers(heads) + Numbers(BlocksByNumbers(s.blocks, tip, last));
  }

  /** One round keeps the account of heads and logs. */
  method RunRound(emitter: BlockEmitter, r: Round, maxQueryNumber: nat, ghost start: int,
                  ghost lostHeads: seq<int>, ghost lostLogs: seq<int>)
    requires ValidSnapshot(r.poll) && ValidSnapshot(r.restart) && Extends(r.poll, r.restart)
    requires -1 <= start <= emitter.currentTip < |r.poll.blocks|
    requires AllButLost(Numbers(emitter.newHeads), start, emitter.currentTip, lostHeads)
    requires LogsButLost(r.poll, start, emitter.currentTip, lostLogs, emitter.newLogs)
    modifies emitter
    ensures emitter.currentTip == NextTip(old(emitter.currentTip), r, maxQueryNumber)
    ensures old(emitter.currentTip) <= emitter.currentTip < |r.restart.blocks|
    ensures AllButLost(Numbers(emitter.newHeads), start, emitter.currentTip,
                       lostHeads + HeadsLostBy(old(emitter.currentTip), r, maxQueryNumber))
    ensures LogsButLost(r.restart, start, emitter.currentTip,
                        lostLogs + LogsLostBy(old(emitter.currentTip), r, maxQueryNumber), emitter.newLogs)
  {
    hide RowsIn, Without, Range, Numbers, BlocksByNumbers, AllButLost, LogsButLost;
    ghost var tip, heads, logs := emitter.currentTip, emitter.newHeads, emitter.newLogs;
    ghost var last := LastHead(tip, r);
    var polled := emitter.Poll(r.poll, maxQueryNumber, r.fault);
    if polled.Err? {
      emitter.Stop();
      emitter.Start(r.restart);
      LogsStay(r.poll, r.restart, start, tip, lostLogs, logs);
      LogsLost(r.restart, start, tip, emitter.currentTip, lostLogs, logs);
    } else {
      LogsPolled(r.poll, start, tip, emitter.currentTip, lostLogs, logs);
      LogsStay(r.poll, r.restart, start, emitter.currentTip, lostLogs, emitter.newLogs);
      assert lostLogs + [] == lostLogs;
    }
    NoBlocks(r.poll.blocks, tip, heads);
    HeadsOfPoll(r.poll, heads, tip, last);
    HeadsRound(Numbers(heads), start, tip, last, emitter.currentTip, lostHeads);
  }

  lemma {:induction false} NoBlocks(blocks: seq<BlockRow>, tip: int, heads: seq<BlockRow>)
    ensures heads + BlocksByNumbers(blocks, tip, tip) == heads
  {
  }

  /**
   Polls with failures, each followed by a restart, over a growing database: the heads notified are
   those above the start and up to `currentTip` but the lost ones, each once and in order, and the logs
   are those of the same blocks but the lost ones. A head is lost when a restart jumps over it after a
   poll that failed before its heads were read, or that had not seen it; the logs of a block are lost
   when a restart jumps over the block.
   */
  method RunRounds(emitter: BlockEmitter, rounds: seq<Round>, maxQueryNumber: nat)
    requires Growing(rounds) && |rounds| > 0
    requires -1 <= emitter.currentTip < |rounds[0].poll.blocks|
    requires emitter.newHeads == [] && emitter.newLogs == []
    modifies emitter
    ensures old(emitter.currentTip) <= emitter.currentTip
    ensures AllButLost(Numbers(emitter.newHeads), old(emitter.currentTip), emitter.currentTip,
                       LostHeads(old(emitter.currentTip), rounds, maxQueryNumber))
    ensures emitter.newLogs
         == Without(RowsIn(rounds[|rounds| - 1].restart.rows, old(emitter.currentTip), emitter.currentTip),
                    LostLogs(old(emitter.currentTip), rounds, maxQueryNumber))
  {
    hide RowsIn, Without, Range, Numbers, NextTip, LastHead, Fails;
    ghost var start := emitter.currentTip;
    ghost var lostHeads: seq<int>, lostLogs: seq<int> := [], [];
    NothingYet(rounds[0].poll, start);
    assert rounds[0..] == rounds;
    var i := 0;
    while i < |rounds|
      invariant 0 <= i <= |rounds| && start <= emitter.currentTip
      invariant AllButLost(Numbers(emitter.newHeads), start, emitter.currentTip, lostHeads)
      invariant LogsButLost(SeenBefore(rounds, i), start, emitter.currentTip, lostLogs, emitter.newLogs)
      invariant lostHeads + LostHeads(emitter.currentTip, rounds[i..], maxQueryNumber)
             == LostHeads(start, rounds, maxQueryNumber)
      invariant lostLogs + LostLogs(emitter.currentTip, rounds[i..], maxQueryNumber)
             == LostLogs(start, rounds, maxQueryNumber)
    {
      ghost var tip, r := emitter.currentTip, rounds[i];
      if i > 0 {
        assert Extends(rounds[i - 1].restart, rounds[i - 1 + 1].poll);
        LogsStay(rounds[i - 1].restart, r.poll, start, tip, lostLogs, emitter.newLogs);
      }
      RunRound(emitter, rounds[i], maxQueryNumber, start, lostHeads, lostLogs);
      LostInRound(tip, rounds, i, maxQueryNumber, lostHeads, lostLogs);
      lostHeads := lostHeads + HeadsLostBy(tip, r, maxQueryNumber);
      lostLogs := lostLogs + LogsLostBy(tip, r, maxQueryNumber);
      i := i + 1;
    }
    assert rounds[i..] == [];
    assert lostHeads + [] == lostHeads && lostLogs + [] == lostLogs;
  }

  lemma {:induction false} NothingYet(s: Snapshot, start: int)
    requires start < |s.blocks|
    ensures AllButLost(Numbers([]), start, start, []) && LogsButLost(s, start, start, [], [])
  {
    NothingAbove(s.rows, start);
  }

  /** What has been seen of the database before round `i`. */
  function SeenBefore(rounds: seq<Round>, i: nat): Snapshot
    requires 0 < |rounds| && i <= |rounds|
  {
    if i == 0 then rounds[0].poll else rounds[i - 1].restart
  }

  lemma {:induction false} LostInRound(tip: int, rounds: seq<Round>, i: nat, maxQueryNumber: nat,
                                       lostHeads: seq<int>, lostLogs: seq<int>)
    requires i < |rounds|
    ensures var next := NextTip(tip, rounds[i], maxQueryNumber);
            && (lostHeads + HeadsLostBy(tip, rounds[i], maxQueryNumber))
               + LostHeads(next, rounds[i + 1..], maxQueryNumber)
               == lostHeads + LostHeads(tip, rounds[i..], maxQueryNumber)
            && (lostLogs + LogsLostBy(tip, rounds[i], maxQueryNumber))
               + LostLogs(next, rounds[i + 1..], maxQueryNumber)
               == lostLogs + LostLogs(tip, rounds[i..], maxQueryNumber)
  {
    assert rounds[i..][1..] == rounds[i + 1..];
    var next := NextTip(tip, rounds[i], maxQueryNumber);
    Seqs.Assoc(lostHeads, HeadsLostBy(tip, rounds[i], maxQueryNumber),
               LostHeads(next, rounds[i + 1..], maxQueryNumber));
    Seqs.Assoc(lostLogs, LogsLostBy(tip, rounds[i], maxQueryNumber),
               LostLogs(next, rounds[i + 1..], maxQueryNumber));
  }
}
